/**
 * Settings of a rotator and the names it builds: the alias `prefix + sep + current`
 * and the daily index `prefix + sep + strftime(now)`, and the reverse reading of an
 * index name into its date.
 */
module Names {
  import opened Wrappers
  import opened Calendar
  import opened DateFormat
  import opened Order

  const DefaultDateFormat: string := "%Y.%m.%d"
  const DefaultSeparator: string := "-"
  const DefaultCurrentAliasName: string := "current"

  /** Python's `setting or default`: None and the empty string are both falsy. */
  function OrDefault(setting: Option<string>, default: string): (r: string)
    ensures setting == None || setting == Some("") ==> r == default
    ensures setting.Some? && setting.value != "" ==> r == setting.value
    ensures default != "" ==> r != ""
  {
    if setting.Some? && setting.value != "" then setting.value else default
  }

  /** The current alias of a family of indices. */
  function AliasName(prefix: string, separator: string, currentAliasName: string): (r: string)
    ensures |r| == |prefix| + |separator| + |currentAliasName|
    ensures r[..|prefix|] == prefix
    ensures r[|prefix|..|prefix| + |separator|] == separator
    ensures r[|prefix| + |separator|..] == currentAliasName
  {
    prefix + separator + currentAliasName
  }

  /** The index of a family for the day of `date`. */
  function IndexName(prefix: string, separator: string, dateFormat: string, date: Date): (r: string)
    requires ValidDate(date)
    ensures |prefix + separator| <= |r|
    ensures r[..|prefix + separator|] == prefix + separator
    ensures r[|prefix + separator|..] == Strftime(dateFormat, date)
  {
    prefix + separator + Strftime(dateFormat, date)
  }

  /**
   * The date an index name carries for a family: None unless the name starts with
   * `prefix + separator` and the rest parses under the date format.
   */
  function ParseIndexDate(name: string, prefix: string, separator: string, dateFormat: string): (r: Option<Date>)
    ensures r.Some? ==> ValidDate(r.value)
    ensures r.Some? <==>
              |prefix + separator| <= |name| && name[..|prefix + separator|] == prefix + separator
              && Strptime(dateFormat, name[|prefix + separator|..]).Some?
    ensures r.Some? ==> Strptime(dateFormat, name[|prefix + separator|..]) == r
  {
    var head := prefix + separator;
    if |head| <= |name| && name[..|head|] == head then Strptime(dateFormat, name[|head|..]) else None
  }

  /** Distinct prefixes have distinct aliases, so rotating one family never repoints another's alias. */
  lemma AliasNameInjective(p: string, q: string, separator: string, currentAliasName: string)
    requires AliasName(p, separator, currentAliasName) == AliasName(q, separator, currentAliasName)
    ensures p == q
  {
    var a := AliasName(p, separator, currentAliasName);
    assert |p| == |q|;
    assert p == a[..|p|] == q;
  }

  /** A daily index name reads back as its family's date, for any complete date format. */
  lemma IndexNameRoundTrip(prefix: string, separator: string, dateFormat: string, date: Date)
    requires ValidDate(date) && Complete(Directives(dateFormat))
    ensures ParseIndexDate(IndexName(prefix, separator, dateFormat, date), prefix, separator, dateFormat) == Some(date)
  {
    RoundTrip(dateFormat, date);
  }

  /** The directives of the default format. */
  const Ymd: seq<Directive> := [Year, Literal('.'), Month, Literal('.'), Day]

  /** The default format splits into year, '.', month, '.', day. */
  lemma DefaultDirectives()
    ensures Directives(DefaultDateFormat) == Ymd
    ensures Complete(Directives(DefaultDateFormat))
  {
    assert Directives(DefaultDateFormat) == Ymd;
  }

  lemma FormatYmd(d: Date)
    requires ValidDate(d)
    ensures FormatDirectives(Ymd, d) == Digits(d.year, 4) + "." + Digits(d.month, 2) + "." + Digits(d.day, 2)
  {
    assert Ymd[1..] == [Literal('.'), Month, Literal('.'), Day];
    assert Ymd[2..] == [Month, Literal('.'), Day];
    assert Ymd[3..] == [Literal('.'), Day];
    assert Ymd[4..] == [Day];
    assert FormatDirectives(Ymd[5..], d) == [];
    assert FormatDirectives(Ymd[4..], d) == Digits(d.day, 2);
    assert FormatDirectives(Ymd[3..], d) == "." + Digits(d.day, 2);
    assert FormatDirectives(Ymd[2..], d) == Digits(d.month, 2) + "." + Digits(d.day, 2);
    assert FormatDirectives(Ymd[1..], d) == "." + Digits(d.month, 2) + "." + Digits(d.day, 2);
  }

  lemma JoinedSlices(a: string, b: string, c: string)
    requires |a| == 4 && |b| == 2 && |c| == 2
    ensures var s := a + "." + b + "." + c;
            |s| == 10 && s[4] == '.' && s[7] == '.' && s[..4] == a && s[5..7] == b && s[8..] == c
  {
  }

  /** The default format writes a zero-padded `YYYY.MM.DD` of ten characters. */
  lemma DefaultFormatShape(d: Date)
    requires ValidDate(d)
    ensures var s := Strftime(DefaultDateFormat, d);
            && |s| == 10 && s[4] == '.' && s[7] == '.'
            && AllDigits(s[..4]) && AllDigits(s[5..7]) && AllDigits(s[8..])
            && Value(s[..4]) == d.year && Value(s[5..7]) == d.month && Value(s[8..]) == d.day
  {
    DefaultDirectives();
    FormatYmd(d);
    JoinedSlices(Digits(d.year, 4), Digits(d.month, 2), Digits(d.day, 2));
    ValueOfDigits(d.year, 4);
    ValueOfDigits(d.month, 2);
    ValueOfDigits(d.day, 2);
  }

  lemma ParseYmdShape(s: string, acc: Fields)
    requires ParseDirectives(Ymd, s, acc).Some?
    ensures |s| == 10 && s[4] == '.' && s[7] == '.'
    ensures AllDigits(s[..4]) && AllDigits(s[5..7]) && AllDigits(s[8..])
    ensures ParseDirectives(Ymd, s, acc) ==
              Some(Fields(Some(Value(s[..4])), Some(Value(s[5..7])), Some(Value(s[8..]))))
  {
    assert Ymd[1..] == [Literal('.'), Month, Literal('.'), Day];
    assert Ymd[2..] == [Month, Literal('.'), Day];
    assert Ymd[3..] == [Literal('.'), Day];
    assert Ymd[4..] == [Day];
    assert Ymd[5..] == [];
    assert ReadField(s, 4, acc.year).Some?;
    var s1 := s[4..];
    var a1 := acc.(year := Some(Value(s[..4])));
    assert ParseDirectives(Ymd[1..], s1, a1).Some?;
    var s2 := s1[1..];
    assert ParseDirectives(Ymd[2..], s2, a1).Some?;
    assert ReadField(s2, 2, a1.month).Some?;
    var a2 := a1.(month := Some(Value(s2[..2])));
    var s3 := s2[2..];
    assert ParseDirectives(Ymd[3..], s3, a2).Some?;
    var s4 := s3[1..];
    assert ParseDirectives(Ymd[4..], s4, a2).Some?;
    assert ReadField(s4, 2, a2.day).Some?;
    assert s4[2..] == [];
    assert s[5..7] == s2[..2];
    assert s[8..] == s4[..2];
  }

  /** Only strings shaped `DDDD.DD.DD` parse under the default format. */
  lemma DefaultParseShape(s: string)
    requires Strptime(DefaultDateFormat, s).Some?
    ensures |s| == 10 && s[4] == '.' && s[7] == '.'
    ensures AllDigits(s[..4]) && AllDigits(s[5..7]) && AllDigits(s[8..])
    ensures forall i :: 0 <= i < |s| ==> IsDigit(s[i]) || s[i] == '.'
  {
    DefaultDirectives();
    ParseYmdShape(s, Fields(None, None, None));
    forall i | 0 <= i < |s| ensures IsDigit(s[i]) || s[i] == '.' {
      if i < 4 {
        assert s[..4][i] == s[i];
      } else if 4 < i < 7 {
        assert s[5..7][i - 5] == s[i];
      } else if 7 < i {
        assert s[8..][i - 8] == s[i];
      }
    }
  }

  /**
   * Under the default format the current alias is never read as a dated index of its
   * family when the alias name holds a character other than a digit or '.', as `current` does.
   */
  lemma AliasIsNotDated(prefix: string, separator: string, currentAliasName: string)
    requires exists i :: 0 <= i < |currentAliasName| && !IsDigit(currentAliasName[i]) && currentAliasName[i] != '.'
    ensures ParseIndexDate(AliasName(prefix, separator, currentAliasName), prefix, separator, DefaultDateFormat) == None
  {
    var name := AliasName(prefix, separator, currentAliasName);
    var head := prefix + separator;
    assert name[..|head|] == head && name[|head|..] == currentAliasName;
    if Strptime(DefaultDateFormat, currentAliasName).Some? {
      DefaultParseShape(currentAliasName);
    }
  }

  lemma DigitsExample()
    ensures Digits(2013, 4) == "2013" && Digits(8, 2) == "08" && Digits(28, 2) == "28"
  {
    assert Digits(2, 1) == Digits(0, 0) + "2";
    assert Digits(20, 2) == Digits(2, 1) + "0";
    assert Digits(201, 3) == Digits(20, 2) + "1";
  }

  lemma ExampleText(s: string)
    requires s == Digits(2013, 4) + "." + Digits(8, 2) + "." + Digits(28, 2)
    ensures s == "2013.08.28"
  {
    DigitsExample();
  }

  /** The date 2013-08-28 under the default format. */
  lemma DefaultFormatExample()
    ensures Strftime(DefaultDateFormat, Date(2013, 8, 28)) == "2013.08.28"
  {
    DefaultDirectives();
    FormatYmd(Date(2013, 8, 28));
    ExampleText(Strftime(DefaultDateFormat, Date(2013, 8, 28)));
  }

  /** The names the rotator builds on 2013-08-28 for the family `logs` with the default settings. */
  lemma DefaultNamesExample()
    ensures AliasName("logs", DefaultSeparator, DefaultCurrentAliasName) == "logs-current"
    ensures IndexName("logs", DefaultSeparator, DefaultDateFormat, Date(2013, 8, 28)) == "logs-2013.08.28"
  {
    DefaultFormatExample();
  }

  /** Of the names `logs-current` and `logs-2013.08.28`, only the second carries a date. */
  lemma DefaultParseExample()
    ensures ParseIndexDate("logs-current", "logs", DefaultSeparator, DefaultDateFormat) == None
    ensures ParseIndexDate("logs-2013.08.28", "logs", DefaultSeparator, DefaultDateFormat) == Some(Date(2013, 8, 28))
  {
    DefaultNamesExample();
    assert !IsDigit(DefaultCurrentAliasName[0]) && DefaultCurrentAliasName[0] != '.';
    AliasIsNotDated("logs", DefaultSeparator, DefaultCurrentAliasName);
    DefaultDirectives();
    IndexNameRoundTrip("logs", DefaultSeparator, DefaultDateFormat, Date(2013, 8, 28));
  }

  /**
   * Zero-padded numbers of one width, each followed by some text, compare as the
   * numbers do, and as the texts do when the numbers are equal.
   */
  lemma {:induction false} DigitsBelow(a: nat, b: nat, width: nat, r1: string, r2: string)
    requires a < Pow10(width) && b < Pow10(width)
    ensures Below(Digits(a, width) + r1, Digits(b, width) + r2) <==> a < b || (a == b && Below(r1, r2))
  {
    if width > 0 {
      var ca, cb := ('0' as int + a % 10) as char, ('0' as int + b % 10) as char;
      var r1', r2' := [ca] + r1, [cb] + r2;
      assert Digits(a, width) + r1 == Digits(a / 10, width - 1) + r1';
      assert Digits(b, width) + r2 == Digits(b / 10, width - 1) + r2';
      DigitsBelow(a / 10, b / 10, width - 1, r1', r2');
      assert a < b <==> a / 10 < b / 10 || (a / 10 == b / 10 && a % 10 < b % 10);
      assert a == b <==> a / 10 == b / 10 && a % 10 == b % 10;
      assert ca < cb <==> a % 10 < b % 10;
      assert ca == cb <==> a % 10 == b % 10;
      if ca != cb {
        BelowAtFirst(r1', r2');
      } else {
        BelowAfterPrefix([ca], r1, r2);
      }
    } else {
      assert Digits(a, width) + r1 == r1 && Digits(b, width) + r2 == r2;
    }
  }

  /** A dot and two digits, compared: as the numbers. */
  lemma DotDigitsOrder(a: nat, b: nat)
    requires a < 100 && b < 100
    ensures Below("." + Digits(a, 2), "." + Digits(b, 2)) <==> a < b
  {
    BelowAfterPrefix(".", Digits(a, 2), Digits(b, 2));
    assert Digits(a, 2) + [] == Digits(a, 2) && Digits(b, 2) + [] == Digits(b, 2);
    DigitsBelow(a, b, 2, [], []);
  }

  /** `.MM.DD` suffixes compare as month, then day. */
  lemma MonthDayOrder(m1: nat, dd1: nat, m2: nat, dd2: nat)
    requires m1 < 100 && dd1 < 100 && m2 < 100 && dd2 < 100
    ensures Below("." + Digits(m1, 2) + "." + Digits(dd1, 2), "." + Digits(m2, 2) + "." + Digits(dd2, 2))
            <==> m1 < m2 || (m1 == m2 && dd1 < dd2)
  {
    var t1, t2 := "." + Digits(dd1, 2), "." + Digits(dd2, 2);
    assert "." + Digits(m1, 2) + "." + Digits(dd1, 2) == "." + (Digits(m1, 2) + t1);
    assert "." + Digits(m2, 2) + "." + Digits(dd2, 2) == "." + (Digits(m2, 2) + t2);
    BelowAfterPrefix(".", Digits(m1, 2) + t1, Digits(m2, 2) + t2);
    DigitsBelow(m1, m2, 2, t1, t2);
    DotDigitsOrder(dd1, dd2);
  }

  lemma YmdText(d: Date)
    requires ValidDate(d)
    ensures Strftime(DefaultDateFormat, d) == Digits(d.year, 4) + ("." + Digits(d.month, 2) + "." + Digits(d.day, 2))
  {
    DefaultDirectives();
    FormatYmd(d);
    Regroup(Digits(d.year, 4), ".", Digits(d.month, 2), ".", Digits(d.day, 2));
  }

  lemma Regroup(a: string, b: string, c: string, d: string, e: string)
    ensures a + b + c + d + e == a + (b + c + d + e)
  {
  }

  /** The default format's text of two dates, compared: as the dates. */
  lemma YmdTextOrder(d1: Date, d2: Date)
    requires ValidDate(d1) && ValidDate(d2)
    ensures Below(Strftime(DefaultDateFormat, d1), Strftime(DefaultDateFormat, d2)) <==> Before(d1, d2)
  {
    YmdText(d1);
    YmdText(d2);
    var t1 := "." + Digits(d1.month, 2) + "." + Digits(d1.day, 2);
    var t2 := "." + Digits(d2.month, 2) + "." + Digits(d2.day, 2);
    DigitsBelow(d1.year, d2.year, 4, t1, t2);
    MonthDayOrder(d1.month, d1.day, d2.month, d2.day);
  }

  /**
   * Under the default format, sorting a family's index names sorts them by date:
   * one name comes before another exactly when its date is earlier.
   */
  lemma NamesInDateOrder(prefix: string, separator: string, d1: Date, d2: Date)
    requires ValidDate(d1) && ValidDate(d2)
    ensures Below(IndexName(prefix, separator, DefaultDateFormat, d1), IndexName(prefix, separator, DefaultDateFormat, d2))
            <==> Before(d1, d2)
  {
    YmdTextOrder(d1, d2);
    BelowAfterPrefix(prefix + separator, Strftime(DefaultDateFormat, d1), Strftime(DefaultDateFormat, d2));
  }

  /** A parse under the default format reads the year, month and day from their fixed places. */
  lemma DefaultParseValues(s: string)
    requires Strptime(DefaultDateFormat, s).Some?
    ensures |s| == 10 && AllDigits(s[..4]) && AllDigits(s[5..7]) && AllDigits(s[8..])
    ensures Strptime(DefaultDateFormat, s).value == Date(Value(s[..4]), Value(s[5..7]), Value(s[8..]))
  {
    DefaultDirectives();
    ParseYmdShape(s, Fields(None, None, None));
  }

  /** Formatting a parsed date gives back the text it was parsed from: one text per date. */
  lemma DefaultFormatOfParse(s: string)
    requires Strptime(DefaultDateFormat, s).Some?
    ensures Strftime(DefaultDateFormat, Strptime(DefaultDateFormat, s).value) == s
  {
    var d := Strptime(DefaultDateFormat, s).value;
    DefaultParseValues(s);
    DefaultParseShape(s);
    DigitsOfValue(s[..4]);
    DigitsOfValue(s[5..7]);
    DigitsOfValue(s[8..]);
    YmdText(d);
    DottedPieces(s);
  }

  /** A `DDDD.DD.DD`-shaped text is its three fields joined by dots. */
  lemma DottedPieces(s: string)
    requires |s| == 10 && s[4] == '.' && s[7] == '.'
    ensures s == s[..4] + ("." + s[5..7] + "." + s[8..])
  {
    assert s[..4] + ("." + s[5..7] + "." + s[8..]) == s;
  }

  /** Under the default format, a name that carries a date is that date's index name. */
  lemma DatedNameIsIndexName(name: string, prefix: string, separator: string)
    requires ParseIndexDate(name, prefix, separator, DefaultDateFormat).Some?
    ensures name == IndexName(prefix, separator, DefaultDateFormat, ParseIndexDate(name, prefix, separator, DefaultDateFormat).value)
  {
    var head := prefix + separator;
    DefaultFormatOfParse(name[|head|..]);
    assert name == head + name[|head|..];
  }

  /** Between two dated names of one family under the default format, name order is date order. */
  lemma DatedNamesInDateOrder(n1: string, n2: string, prefix: string, separator: string)
    requires ParseIndexDate(n1, prefix, separator, DefaultDateFormat).Some?
    requires ParseIndexDate(n2, prefix, separator, DefaultDateFormat).Some?
    ensures Below(n1, n2) <==> Before(ParseIndexDate(n1, prefix, separator, DefaultDateFormat).value,
                                      ParseIndexDate(n2, prefix, separator, DefaultDateFormat).value)
  {
    var d1 := ParseIndexDate(n1, prefix, separator, DefaultDateFormat).value;
    var d2 := ParseIndexDate(n2, prefix, separator, DefaultDateFormat).value;
    DatedNameIsIndexName(n1, prefix, separator);
    DatedNameIsIndexName(n2, prefix, separator);
    NamesInDateOrder(prefix, separator, d1, d2);
  }
}
