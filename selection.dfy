/**
 * Which puzzle days a run executes: the command-line tokens are resolved
 * against the registry of days into a set of (year, day) pairs, and that set
 * is run in ascending order.
 */
module Selection {
  import opened Wrappers
  import opened KotlinText

  /** A puzzle day, ordered by year and then by day number. */
  datatype Day = Day(year: int, day: int)

  predicate Before(a: Day, b: Day) {
    a.year < b.year || (a.year == b.year && a.day < b.day)
  }

  predicate NotAfter(a: Day, b: Day) {
    a == b || Before(a, b)
  }

  // ---------------------------------------------------------------------------
  // Registry queries (the registry is the sequence of registered identities)

  /** `years().maxByOrNull { it.toInt() }`: the largest registered year, if any. */
  function MostRecentYear(ids: seq<Day>): (r: Option<int>)
    ensures r.None? <==> |ids| == 0
    ensures r.Some? ==> exists i :: 0 <= i < |ids| && ids[i].year == r.value
    ensures r.Some? ==> forall i :: 0 <= i < |ids| ==> ids[i].year <= r.value
  {
    if |ids| == 0 then None
    else
      var last := ids[|ids| - 1].year;
      match MostRecentYear(ids[..|ids| - 1])
      case None => Some(last)
      case Some(y) => Some(if last > y then last else y)
  }

  /** `getAll(year).days()`: the registered days of one year, in registry order. */
  function DaysOfYear(ids: seq<Day>, year: int): (r: seq<Day>)
    ensures forall d :: d in r <==> d in ids && d.year == year
  {
    if |ids| == 0 then []
    else if ids[0].year == year then [ids[0]] + DaysOfYear(ids[1..], year)
    else DaysOfYear(ids[1..], year)
  }

  /** `maxOrNull()` over days. */
  function MaxDay(ds: seq<Day>): (r: Option<Day>)
    ensures r.None? <==> |ds| == 0
    ensures r.Some? ==> r.value in ds && forall d :: d in ds ==> NotAfter(d, r.value)
  {
    if |ds| == 0 then None
    else
      assert forall d :: d in ds ==> d == ds[0] || d in ds[1..];
      match MaxDay(ds[1..])
      case None => Some(ds[0])
      case Some(m) => Some(if Before(m, ds[0]) then ds[0] else m)
  }

  // ---------------------------------------------------------------------------
  // Tokens

  datatype Selector = AllDays | LatestDay | DayNumber(n: int)

  /** The forms a command-line token can take. */
  datatype Token =
    | Number(n: int)                          // "8": that day of the most recent year
    | All                                     // "all"
    | Latest                                  // "latest"
    | InYear(year: nat, selector: Selector)   // "2023:all", "2023:latest", "2023:8"

  /** The characters that `.` in a Java regular expression does not match. */
  predicate IsLineTerminator(c: char) {
    c == '\n' || c == '\r' || c == '\U{85}' || c == '\U{2028}' || c == '\U{2029}'
  }

  /** Whether the whole token matches `(\d{4}):(.+)`. */
  predicate YearQualified(arg: string) {
    && |arg| >= 6
    && AllDigits(arg[..4])
    && arg[4] == ':'
    && forall i :: 5 <= i < |arg| ==> !IsLineTerminator(arg[i])
  }

  /** How one token is read; `None` is the "unknown argument" that aborts the run. */
  function ParseToken(arg: string): Option<Token> {
    match ParseInt32(arg)
    case Some(n) => Some(Number(n))
    case None =>
      if arg == "all" then Some(All)
      else if arg == "latest" then Some(Latest)
      else if YearQualified(arg) then
        var year := DigitsValue(arg[..4]);
        var selection := arg[5..];
        if selection == "all" then Some(InYear(year, AllDays))
        else if selection == "latest" then Some(InYear(year, LatestDay))
        else
          match ParseInt32(selection)
          case Some(n) => Some(InYear(year, DayNumber(n)))
          case None => None
      else None
  }

  function AsSet(ds: seq<Day>): (r: set<Day>)
    ensures forall d :: d in r <==> d in ds
  {
    set d | d in ds
  }

  function LatestOf(ds: seq<Day>): set<Day> {
    match MaxDay(ds)
    case None => {}
    case Some(d) => {d}
  }

  /** `s` holds exactly the newest registered day of `year`, or nothing if that year has none. */
  ghost predicate NewestOfYear(ids: seq<Day>, year: int, s: set<Day>) {
    && (s == {} <==> forall d :: d in ids ==> d.year != year)
    && (forall d, e :: d in s && e in s ==> d == e)
    && forall d :: d in s ==>
         d in ids && d.year == year && forall e :: e in ids && e.year == year ==> e.day <= d.day
  }

  /** The days a token adds to the selection; `recent` is the most recent registered year. */
  function Expand(ids: seq<Day>, recent: int, t: Token): (r: set<Day>)
    ensures t.Number? ==> r == {Day(recent, t.n)}
    ensures t.All? ==> forall d :: d in r <==> d in ids
    ensures t.Latest? ==> NewestOfYear(ids, recent, r)
    ensures t.InYear? && t.selector.AllDays? ==> forall d :: d in r <==> d in ids && d.year == t.year
    ensures t.InYear? && t.selector.LatestDay? ==> NewestOfYear(ids, t.year, r)
    ensures t.InYear? && t.selector.DayNumber? ==> r == {Day(t.year, t.selector.n)}
  {
    match t
    case Number(n) => {Day(recent, n)}
    case All => AsSet(ids)
    case Latest => LatestOf(DaysOfYear(ids, recent))
    case InYear(year, AllDays) => AsSet(DaysOfYear(ids, year))
    case InYear(year, LatestDay) => LatestOf(DaysOfYear(ids, year))
    case InYear(year, DayNumber(n)) => {Day(year, n)}
  }

  /** Whether token `arg` puts day `d` into the selection. */
  predicate Selects(ids: seq<Day>, arg: string, d: Day) {
    && MostRecentYear(ids).Some?
    && ParseToken(arg).Some?
    && d in Expand(ids, MostRecentYear(ids).value, ParseToken(arg).value)
  }

  /** A `YYYY:N` token names its day outright: what it adds does not depend on the registry. */
  lemma QualifiedDayIgnoresRegistry(ids1: seq<Day>, ids2: seq<Day>, recent1: int, recent2: int, arg: string)
    requires ParseToken(arg).Some? && ParseToken(arg).value.InYear?
    requires ParseToken(arg).value.selector.DayNumber?
    ensures Expand(ids1, recent1, ParseToken(arg).value) == Expand(ids2, recent2, ParseToken(arg).value)
  {
  }

  // ---------------------------------------------------------------------------
  // Rendering tokens back to text

  function Pad4(y: nat): (s: string)
    requires y < 10000
    ensures |s| == 4 && AllDigits(s)
  {
    [DigitChar(y / 1000), DigitChar(y / 100 % 10), DigitChar(y / 10 % 10), DigitChar(y % 10)]
  }

  lemma Pad4Value(y: nat)
    requires y < 10000
    ensures DigitsValue(Pad4(y)) == y
  {
    var s := Pad4(y);
    assert s[..1][..0] == [] && s[..2][..1] == s[..1] && s[..3][..2] == s[..2] && s[..4][..3] == s[..3];
    assert DigitsValue(s[..1]) == y / 1000;
    assert DigitsValue(s[..2]) == y / 1000 * 10 + y / 100 % 10 == y / 100;
    assert DigitsValue(s[..3]) == y / 100 * 10 + y / 10 % 10 == y / 10;
    assert s[..4] == s;
  }

  predicate Renderable(t: Token) {
    match t
    case Number(n) => INT_MIN <= n <= INT_MAX
    case InYear(year, selector) =>
      year < 10000 && (selector.DayNumber? ==> INT_MIN <= selector.n <= INT_MAX)
    case _ => true
  }

  function RenderSelector(s: Selector): string {
    match s
    case AllDays => "all"
    case LatestDay => "latest"
    case DayNumber(n) => ShowInt(n)
  }

  /** The command-line text a user writes for a token. */
  function Render(t: Token): string
    requires Renderable(t)
  {
    match t
    case Number(n) => ShowInt(n)
    case All => "all"
    case Latest => "latest"
    case InYear(year, selector) => Pad4(year) + ":" + RenderSelector(selector)
  }

  /** Every token is read back from its rendering. */
  lemma ParseRender(t: Token)
    requires Renderable(t)
    ensures ParseToken(Render(t)) == Some(t)
  {
    match t
    case Number(n) =>
      ParseShowInt(n);
    case All =>
      ParseRejectsNonDigit("all", 0);
    case Latest =>
      ParseRejectsNonDigit("latest", 0);
    case InYear(year, selector) =>
      ParseRenderInYear(year, selector);
  }

  lemma ParseRenderInYear(year: nat, selector: Selector)
    requires Renderable(InYear(year, selector))
    ensures ParseToken(Render(InYear(year, selector))) == Some(InYear(year, selector))
  {
    var sel := RenderSelector(selector);
    var s := Pad4(year) + ":" + sel;
    assert s[..4] == Pad4(year) && s[4] == ':' && s[5..] == sel;
    ParseRejectsNonDigit(s, 4);
    Pad4Value(year);
    assert s != "all" && s != "latest";
    match selector
    case AllDays =>
    case LatestDay =>
    case DayNumber(n) =>
      ShowIntChars(n);
      ParseShowInt(n);
      assert sel[0] != 'a' && sel[0] != 'l';
      assert forall i :: 5 <= i < |s| ==> s[i] == sel[i - 5];
  }

  // ---------------------------------------------------------------------------
  // Resolving all tokens

  datatype Abort = NoYears | UnknownArgument(arg: string)

  datatype Resolution = Aborted(reason: Abort) | Resolved(days: set<Day>)

  /**
   * The selection loop of `main`: with no registered year, or at the first
   * token that cannot be read, the whole run is abandoned; otherwise the
   * selection is the union of what every token adds (a set, so repeated days
   * collapse).
   */
  method ResolveDays(ids: seq<Day>, args: seq<string>) returns (r: Resolution)
    ensures r == Aborted(NoYears) <==> |ids| == 0
    ensures |ids| > 0 ==> (r.Aborted? <==> exists i :: 0 <= i < |args| && ParseToken(args[i]).None?)
    ensures r.Aborted? && r.reason.UnknownArgument? ==>
      exists i :: && 0 <= i < |args| && args[i] == r.reason.arg && ParseToken(args[i]).None?
                  && forall j :: 0 <= j < i ==> ParseToken(args[j]).Some?
    ensures r.Resolved? ==>
      forall d :: d in r.days <==> exists i :: 0 <= i < |args| && Selects(ids, args[i], d)
  {
    var recent := MostRecentYear(ids);
    if recent.None? {
      return Aborted(NoYears);
    }
    var days: set<Day> := {};
    var i := 0;
    while i < |args|
      invariant 0 <= i <= |args|
      invariant forall j :: 0 <= j < i ==> ParseToken(args[j]).Some?
      invariant forall d :: d in days <==> exists j :: 0 <= j < i && Selects(ids, args[j], d)
    {
      match ParseToken(args[i]) {
        case None =>
          return Aborted(UnknownArgument(args[i]));
        case Some(t) =>
          days := days + Expand(ids, recent.value, t);
      }
      i := i + 1;
    }
    return Resolved(days);
  }

  /**
   * With 2022 day 1 and 2023 days 1 to 8 registered, "2023:8" and "latest"
   * both select 2023 day 8 and nothing else, and nothing from 2022.
   */
  lemma ExampleSelection()
    ensures forall d :: Selects(ExampleRegistry, "2023:8", d) <==> d == Day(2023, 8)
    ensures forall d :: Selects(ExampleRegistry, "latest", d) <==> d == Day(2023, 8)
  {
    ExampleRecentYear();
    ExampleTokens();
    assert Expand(ExampleRegistry, 2023, InYear(2023, DayNumber(8))) == {Day(2023, 8)};
    ExampleLatest();
  }

  lemma ExampleLatest()
    ensures Expand(ExampleRegistry, 2023, Latest) == {Day(2023, 8)}
  {
    var ids := ExampleRegistry;
    assert Day(2023, 8) == ids[8];
    assert forall e :: e in ids && e.year == 2023 ==> e.day <= 8;
    LatestIsNewest(ids, 2023, Day(2023, 8));
  }

  /** "latest" adds the registered day of the year with the largest day number. */
  lemma LatestIsNewest(ids: seq<Day>, year: int, d: Day)
    requires d in ids && d.year == year
    requires forall e :: e in ids && e.year == year ==> e.day <= d.day
    ensures Expand(ids, year, Latest) == {d}
  {
    var r := Expand(ids, year, Latest);
    forall x | x in r ensures x == d {
      assert x.day >= d.day;
    }
  }

  lemma ExampleRecentYear()
    ensures MostRecentYear(ExampleRegistry) == Some(2023)
  {
    var ids := ExampleRegistry;
    assert forall i :: 0 <= i < |ids| ==> ids[i].year <= 2023;
    assert ids[8].year == 2023;
  }

  lemma ExampleTokens()
    ensures ParseToken("2023:8") == Some(InYear(2023, DayNumber(8)))
    ensures ParseToken("latest") == Some(Latest)
  {
    var arg := "2023:8";
    ParseRejectsNonDigit(arg, 4);
    assert arg[..4] == "2023" && arg[5..] == "8";
    assert DigitsValue("2023") == 2023 by {
      assert "2023"[..3] == "202" && "202"[..2] == "20" && "20"[..1] == "2" && "2"[..0] == [];
    }
    assert ParseInt32("8") == Some(8) by {
      assert "8"[..0] == [];
    }
    ParseRejectsNonDigit("latest", 0);
  }

  const ExampleRegistry: seq<Day> := [
    Day(2022, 1), Day(2023, 1), Day(2023, 2), Day(2023, 3), Day(2023, 4),
    Day(2023, 5), Day(2023, 6), Day(2023, 7), Day(2023, 8)]

  // ---------------------------------------------------------------------------
  // Running the selection in order

  predicate StrictlySorted(q: seq<Day>) {
    forall i, j :: 0 <= i < j < |q| ==> Before(q[i], q[j])
  }

  lemma {:induction false} MinimumExists(s: set<Day>)
    requires s != {}
    decreases |s|
    ensures exists m :: m in s && forall d :: d in s ==> NotAfter(m, d)
  {
    var x :| x in s;
    if s == {x} {
      assert NotAfter(x, x);
    } else {
      var rest := s - {x};
      MinimumExists(rest);
      var m :| m in rest && forall d :: d in rest ==> NotAfter(m, d);
      var least := if Before(x, m) then x else m;
      forall d | d in s ensures NotAfter(least, d) {
        if d != x {
          assert d in rest;
        }
      }
      assert least in s;
    }
  }

  /**
   * `days.toList().sorted()`: the selected days in ascending order, each
   * exactly once.
   */
  method SortDays(s: set<Day>) returns (q: seq<Day>)
    ensures StrictlySorted(q)
    ensures forall d :: d in q <==> d in s
    ensures |q| == |s|
  {
    q := [];
    var rest := s;
    while rest != {}
      invariant StrictlySorted(q)
      invariant forall d :: d in s <==> d in q || d in rest
      invariant forall d :: d in q ==> d !in rest
      invariant forall i, d :: 0 <= i < |q| && d in rest ==> Before(q[i], d)
      invariant |q| + |rest| == |s|
      decreases |rest|
    {
      MinimumExists(rest);
      var m :| m in rest && forall d :: d in rest ==> NotAfter(m, d);
      q := q + [m];
      rest := rest - {m};
    }
  }
}
