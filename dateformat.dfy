/**
 * The part of `strftime`/`strptime` that daily index names use: the directives
 * `%Y` (four-digit year), `%m` and `%d` (two-digit month and day, zero-padded),
 * `%%` and literal characters. Any other directive is kept verbatim by
 * formatting and refused by parsing.
 */
module DateFormat {
  import opened Wrappers
  import opened Calendar

  /** One element of a format string. */
  datatype Directive = Year | Month | Day | Literal(c: char) | Unsupported(c: char)

  function DirectiveFor(c: char): Directive
  {
    match c
    case 'Y' => Year
    case 'm' => Month
    case 'd' => Day
    case '%' => Literal('%')
    case _ => Unsupported(c)
  }

  /**
   * Splits a format string into directives. A lone trailing `%`, which Python
   * refuses in both directions, is an unsupported directive.
   */
  function Directives(fmt: string): seq<Directive>
  {
    DirectivesFrom(fmt, 0)
  }

  /** The directives of `fmt[i..]`. */
  function DirectivesFrom(fmt: string, i: nat): seq<Directive>
    requires i <= |fmt|
    decreases |fmt| - i
  {
    if i == |fmt| then []
    else if fmt[i] == '%' && i + 1 < |fmt| then [DirectiveFor(fmt[i + 1])] + DirectivesFrom(fmt, i + 2)
    else [if fmt[i] == '%' then Unsupported('%') else Literal(fmt[i])] + DirectivesFrom(fmt, i + 1)
  }

  predicate IsDigit(c: char)
  {
    '0' <= c <= '9'
  }

  predicate AllDigits(s: string)
  {
    forall i :: 0 <= i < |s| ==> IsDigit(s[i])
  }

  function Pow10(w: nat): nat
  {
    if w == 0 then 1 else 10 * Pow10(w - 1)
  }

  /** The last `width` decimal digits of `n`, zero-padded on the left. */
  function Digits(n: nat, width: nat): (s: string)
    ensures |s| == width && AllDigits(s)
  {
    if width == 0 then []
    else Digits(n / 10, width - 1) + [('0' as int + n % 10) as char]
  }

  /** The number a string of decimal digits denotes. */
  function Value(s: string): (n: nat)
    requires AllDigits(s)
    ensures n < Pow10(|s|)
  {
    if s == [] then 0
    else 10 * Value(s[..|s| - 1]) + (s[|s| - 1] as int - '0' as int)
  }

  /** Zero-padded digits read back give the number they were written from. */
  lemma {:induction false} ValueOfDigits(n: nat, width: nat)
    requires n < Pow10(width)
    ensures Value(Digits(n, width)) == n
  {
    if width > 0 {
      var s := Digits(n, width);
      assert s[..|s| - 1] == Digits(n / 10, width - 1);
      ValueOfDigits(n / 10, width - 1);
    }
  }

  /** Writing back the number a string of digits denotes gives the string. */
  lemma {:induction false} DigitsOfValue(s: string)
    requires AllDigits(s)
    ensures Digits(Value(s), |s|) == s
  {
    if s != [] {
      var init, last := s[..|s| - 1], s[|s| - 1];
      assert AllDigits(init) by {
        forall i | 0 <= i < |init| ensures IsDigit(init[i]) {
          assert init[i] == s[i];
        }
      }
      DigitsOfValue(init);
      var v := Value(s);
      assert IsDigit(last);
      assert v / 10 == Value(init) && v % 10 == last as int - '0' as int;
      assert s == init + [last];
    }
  }

  function FormatDirectives(ds: seq<Directive>, d: Date): string
    requires ValidDate(d)
  {
    if ds == [] then []
    else
      var head := match ds[0]
        case Year => Digits(d.year, 4)
        case Month => Digits(d.month, 2)
        case Day => Digits(d.day, 2)
        case Literal(c) => [c]
        case Unsupported(c) => ['%', c];
      head + FormatDirectives(ds[1..], d)
  }

  /** Every character a directive can write, other than a digit, occurs in `fmt`. */
  predicate DrawsOn(ds: seq<Directive>, fmt: string)
  {
    forall j :: 0 <= j < |ds| ==>
      (ds[j].Literal? ==> ds[j].c in fmt) && (ds[j].Unsupported? ==> ds[j].c in fmt && '%' in fmt)
  }

  lemma {:induction false} DirectivesDrawOn(fmt: string, i: nat)
    requires i <= |fmt|
    ensures DrawsOn(DirectivesFrom(fmt, i), fmt)
    decreases |fmt| - i
  {
    if i < |fmt| {
      assert fmt[i] in fmt;
      if fmt[i] == '%' && i + 1 < |fmt| {
        assert fmt[i + 1] in fmt;
        DirectivesDrawOn(fmt, i + 2);
      } else {
        DirectivesDrawOn(fmt, i + 1);
      }
    }
  }

  lemma {:induction false} FormatDrawsOn(ds: seq<Directive>, d: Date, fmt: string)
    requires ValidDate(d) && DrawsOn(ds, fmt)
    ensures forall k :: 0 <= k < |FormatDirectives(ds, d)| ==>
              IsDigit(FormatDirectives(ds, d)[k]) || FormatDirectives(ds, d)[k] in fmt
  {
    if ds != [] {
      FormatDrawsOn(ds[1..], d, fmt);
      assert DrawsOn(ds[1..], fmt) by {
        forall j | 0 <= j < |ds[1..]| ensures ds[1..][j] == ds[j + 1] {
        }
      }
      var head := match ds[0]
        case Year => Digits(d.year, 4)
        case Month => Digits(d.month, 2)
        case Day => Digits(d.day, 2)
        case Literal(c) => [c]
        case Unsupported(c) => ['%', c];
      assert forall k :: 0 <= k < |head| ==> IsDigit(head[k]) || head[k] in fmt;
      assert FormatDirectives(ds, d) == head + FormatDirectives(ds[1..], d);
    }
  }

  /** `date.strftime(fmt)` for the directives above. */
  function Strftime(fmt: string, d: Date): string
    requires ValidDate(d)
  {
    FormatDirectives(Directives(fmt), d)
  }

  /** A formatted date holds digits and characters of the format, and nothing else. */
  lemma StrftimeCharacters(fmt: string, d: Date)
    requires ValidDate(d)
    ensures forall k :: 0 <= k < |Strftime(fmt, d)| ==> IsDigit(Strftime(fmt, d)[k]) || Strftime(fmt, d)[k] in fmt
  {
    DirectivesDrawOn(fmt, 0);
    FormatDrawsOn(Directives(fmt), d, fmt);
  }

  /** The fields a parse has read so far. */
  datatype Fields = Fields(year: Option<int>, month: Option<int>, day: Option<int>)

  /** Reads a field of exactly `width` digits from the front of `s`; None if a field is already set. */
  function ReadField(s: string, width: nat, already: Option<int>): Option<int>
  {
    if already.Some? || |s| < width || !AllDigits(s[..width]) then None
    else Some(Value(s[..width]))
  }

  function ParseDirectives(ds: seq<Directive>, s: string, acc: Fields): Option<Fields>
  {
    if ds == [] then (if s == [] then Some(acc) else None)
    else match ds[0]
      case Year =>
        (match ReadField(s, 4, acc.year)
         case Some(v) => ParseDirectives(ds[1..], s[4..], acc.(year := Some(v)))
         case None => None)
      case Month =>
        (match ReadField(s, 2, acc.month)
         case Some(v) => ParseDirectives(ds[1..], s[2..], acc.(month := Some(v)))
         case None => None)
      case Day =>
        (match ReadField(s, 2, acc.day)
         case Some(v) => ParseDirectives(ds[1..], s[2..], acc.(day := Some(v)))
         case None => None)
      case Literal(c) =>
        if s != [] && s[0] == c then ParseDirectives(ds[1..], s[1..], acc) else None
      case Unsupported(_) => None
  }

  /**
   * `datetime.strptime(s, fmt)` for the `%Y`/`%m`/`%d`/`%%` subset, with two-digit
   * month and day fields and literals matched exactly: None where the string does
   * not match. Fields the format does not mention default to 1900-01-01, as in Python.
   */
  function Strptime(fmt: string, s: string): (r: Option<Date>)
    ensures r.Some? ==> ValidDate(r.value)
  {
    match ParseDirectives(Directives(fmt), s, Fields(None, None, None))
    case None => None
    case Some(f) =>
      var d := Date(f.year.GetOr(1900), f.month.GetOr(1), f.day.GetOr(1));
      if ValidDate(d) then Some(d) else None
  }

  /** No directive other than literals, year, month and day, and each field at most once. */
  predicate Unambiguous(ds: seq<Directive>)
  {
    && (forall i :: 0 <= i < |ds| ==> !ds[i].Unsupported?)
    && (forall i, j :: 0 <= i < j < |ds| && !ds[i].Literal? ==> ds[i] != ds[j])
  }

  /** A format that names year, month and day once each and uses no other directive. */
  predicate Complete(ds: seq<Directive>)
  {
    Unambiguous(ds) && Year in ds && Month in ds && Day in ds
  }

  /** A format ending in a stray `%` names no complete date, so the round-trip lemmas do not cover it. */
  lemma StrayPercentIsIncomplete()
    ensures Directives("%Y.%m.%d%") == [Year, Literal('.'), Month, Literal('.'), Day, Unsupported('%')]
    ensures !Complete(Directives("%Y.%m.%d%"))
  {
    assert DirectivesFrom("%Y.%m.%d%", 8) == [Unsupported('%')];
    assert DirectivesFrom("%Y.%m.%d%", 6) == [Day, Unsupported('%')];
    assert DirectivesFrom("%Y.%m.%d%", 5) == [Literal('.'), Day, Unsupported('%')];
    assert DirectivesFrom("%Y.%m.%d%", 3) == [Month, Literal('.'), Day, Unsupported('%')];
    assert DirectivesFrom("%Y.%m.%d%", 2) == [Literal('.'), Month, Literal('.'), Day, Unsupported('%')];
    assert Directives("%Y.%m.%d%")[5].Unsupported?;
  }

  lemma DigitsPrefix(n: nat, width: nat, rest: string)
    ensures (Digits(n, width) + rest)[..width] == Digits(n, width)
    ensures (Digits(n, width) + rest)[width..] == rest
  {
  }

  /** Dropping the first directive keeps a format unambiguous, and a field directive does not come back. */
  lemma UnambiguousTail(ds: seq<Directive>)
    requires ds != [] && Unambiguous(ds)
    ensures Unambiguous(ds[1..])
    ensures !ds[0].Literal? ==> ds[0] !in ds[1..]
  {
    var tail := ds[1..];
    forall i, j | 0 <= i < j < |tail| && !tail[i].Literal?
      ensures tail[i] != tail[j]
    {
      assert tail[i] == ds[i + 1] && tail[j] == ds[j + 1];
    }
    if !ds[0].Literal? {
      forall j | 0 <= j < |tail| ensures tail[j] != ds[0] {
        assert tail[j] == ds[j + 1];
      }
    }
  }

  /** Reading back the first directive of a formatted date. */
  lemma ParseFirst(ds: seq<Directive>, d: Date, acc: Fields)
    requires ValidDate(d) && ds != [] && !ds[0].Unsupported?
    requires ds[0] == Year ==> acc.year.None?
    requires ds[0] == Month ==> acc.month.None?
    requires ds[0] == Day ==> acc.day.None?
    ensures var tail := FormatDirectives(ds[1..], d);
            ParseDirectives(ds, FormatDirectives(ds, d), acc) ==
              match ds[0]
              case Year => ParseDirectives(ds[1..], tail, acc.(year := Some(d.year)))
              case Month => ParseDirectives(ds[1..], tail, acc.(month := Some(d.month)))
              case Day => ParseDirectives(ds[1..], tail, acc.(day := Some(d.day)))
              case _ => ParseDirectives(ds[1..], tail, acc)
  {
    var rest := FormatDirectives(ds[1..], d);
    match ds[0]
    case Year =>
      DigitsPrefix(d.year, 4, rest);
      ValueOfDigits(d.year, 4);
    case Month =>
      DigitsPrefix(d.month, 2, rest);
      ValueOfDigits(d.month, 2);
    case Day =>
      DigitsPrefix(d.day, 2, rest);
      ValueOfDigits(d.day, 2);
    case Literal(c) =>
  }

  /** Parsing what was formatted reads back exactly the fields the directives name. */
  lemma {:induction false} ParseFormatted(ds: seq<Directive>, d: Date, acc: Fields)
    requires ValidDate(d) && Unambiguous(ds)
    requires acc.year.Some? ==> Year !in ds
    requires acc.month.Some? ==> Month !in ds
    requires acc.day.Some? ==> Day !in ds
    ensures ParseDirectives(ds, FormatDirectives(ds, d), acc)
            == Some(Fields(if Year in ds then Some(d.year) else acc.year,
                           if Month in ds then Some(d.month) else acc.month,
                           if Day in ds then Some(d.day) else acc.day))
  {
    if ds != [] {
      var tail := ds[1..];
      UnambiguousTail(ds);
      assert ds == [ds[0]] + tail;
      ParseFirst(ds, d, acc);
      match ds[0]
      case Year =>
        ParseFormatted(tail, d, acc.(year := Some(d.year)));
      case Month =>
        ParseFormatted(tail, d, acc.(month := Some(d.month)));
      case Day =>
        ParseFormatted(tail, d, acc.(day := Some(d.day)));
      case Literal(c) =>
        ParseFormatted(tail, d, acc);
    }
  }

  /** For a complete format, `strptime` inverts `strftime`. */
  lemma RoundTrip(fmt: string, d: Date)
    requires ValidDate(d) && Complete(Directives(fmt))
    ensures Strptime(fmt, Strftime(fmt, d)) == Some(d)
  {
    ParseFormatted(Directives(fmt), d, Fields(None, None, None));
  }

  /** For a complete format, distinct dates format to distinct strings. */
  lemma StrftimeInjective(fmt: string, d: Date, e: Date)
    requires ValidDate(d) && ValidDate(e) && Complete(Directives(fmt))
    requires Strftime(fmt, d) == Strftime(fmt, e)
    ensures d == e
  {
    RoundTrip(fmt, d);
    RoundTrip(fmt, e);
  }
}
