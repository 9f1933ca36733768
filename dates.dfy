/** Date tokens of the form `M/D/YY`: the subset of Python's
    `datetime.strptime(token, "%m/%d/%y")` the dashboard uses, the calendar
    order that `sorted(..., key=...)` puts the discovered tokens in, and the
    default choice of the last five dates (heatmapv2.py:79-90). */
module Dates {
  import opened Wrappers
  import opened Text

  /** A calendar date as `strptime` yields it (the time of day is always
      midnight and plays no part in the order). */
  datatype Date = Date(year: int, month: int, day: int)

  /** The three digit runs of a token matching `\d+/\d+/\d+`. */
  datatype Fields = Fields(month: string, day: string, year: string)

  predicate IsDigit(c: char)
  {
    '0' <= c <= '9'
  }

  /** A nonempty run of ASCII digits, as `\d+` matches it. */
  predicate Digits(s: string)
  {
    |s| > 0 && forall k :: 0 <= k < |s| ==> IsDigit(s[k])
  }

  /** The decimal value of a run of digits. */
  function Value(s: string): (r: nat)
    requires forall k :: 0 <= k < |s| ==> IsDigit(s[k])
  {
    if |s| == 0 then 0
    else Value(s[..|s| - 1]) * 10 + DigitValue(s[|s| - 1])
  }

  function DigitValue(c: char): (r: nat)
    requires IsDigit(c)
  {
    c as int - '0' as int
  }

  lemma ValueOfShort(s: string)
    requires 1 <= |s| <= 2 && Digits(s)
    ensures |s| == 1 ==> Value(s) == DigitValue(s[0])
    ensures |s| == 2 ==> Value(s) == 10 * DigitValue(s[0]) + DigitValue(s[1])
  {
    assert Value(s[..0]) == 0;
    if |s| == 2 {
      assert s[..1][..0] == s[..0];
      assert Value(s[..1]) == DigitValue(s[0]);
    }
  }

  /** Splits a token of the shape `\d+/\d+/\d+` at its two slashes into the
      three digit runs; None if the token has another shape. */
  function DateFields(t: string): (r: Option<Fields>)
  {
    var a := Find(t, 0, '/');
    if a.None? then None
    else
      var b := Find(t, a.value + 1, '/');
      if b.None? then None else Cut(t, a.value, b.value)
  }

  /** The fields either side of the slashes at `a` and `b`, if there is no
      third slash and each field is a digit run. */
  function Cut(t: string, a: nat, b: nat): (r: Option<Fields>)
    requires a < b < |t|
  {
    var f := Fields(t[..a], t[a + 1..b], t[b + 1..]);
    if Find(t, b + 1, '/').None? && Digits(f.month) && Digits(f.day) && Digits(f.year) then Some(f)
    else None
  }

  /** The fields found are digit runs that make up the token. */
  lemma DateFieldsSound(t: string)
    requires DateFields(t).Some?
    ensures var f := DateFields(t).value;
      Digits(f.month) && Digits(f.day) && Digits(f.year) && t == f.month + "/" + f.day + "/" + f.year
  {
    var a := Find(t, 0, '/').value;
    var b := Find(t, a + 1, '/').value;
    FindFirst(t, 0, '/');
    FindFirst(t, a + 1, '/');
    Reassemble(t, a, b);
  }

  lemma Reassemble(t: string, a: nat, b: nat)
    requires a < b < |t| && t[a] == '/' && t[b] == '/'
    ensures t == t[..a] + "/" + t[a + 1..b] + "/" + t[b + 1..]
  {
    assert t == t[..a] + [t[a]] + t[a + 1..b] + [t[b]] + t[b + 1..];
  }

  /** Every `\d+/\d+/\d+` token has its fields found. */
  lemma DateFieldsComplete(m: string, d: string, y: string)
    requires Digits(m) && Digits(d) && Digits(y)
    ensures DateFields(m + "/" + d + "/" + y) == Some(Fields(m, d, y))
  {
    var t := m + "/" + d + "/" + y;
    var a, b := |m|, |m| + 1 + |d|;
    assert t[..a] == m && t[a] == '/';
    assert t[a + 1..b] == d && t[b] == '/';
    assert t[b + 1..] == y;
    SlashAfter(t, 0, m);
    SlashAfter(t, a + 1, d);
    SlashAfter(t, b + 1, y);
    DateFieldsAt(t, a, b);
  }

  lemma DateFieldsAt(t: string, a: nat, b: nat)
    requires a < b < |t|
    requires Find(t, 0, '/') == Some(a) && Find(t, a + 1, '/') == Some(b) && Find(t, b + 1, '/').None?
    requires Digits(t[..a]) && Digits(t[a + 1..b]) && Digits(t[b + 1..])
    ensures DateFields(t) == Some(Fields(t[..a], t[a + 1..b], t[b + 1..]))
  {
  }

  /** A digit run at `from` that is not followed by a further slash within
      the token leaves `Find` to the slash right after it, if any. */
  lemma SlashAfter(t: string, from: nat, run: string)
    requires from + |run| <= |t| && t[from..from + |run|] == run
    requires forall k :: 0 <= k < |run| ==> IsDigit(run[k])
    ensures from + |run| < |t| && t[from + |run|] == '/' ==> Find(t, from, '/') == Some(from + |run|)
    ensures from + |run| == |t| ==> Find(t, from, '/').None?
  {
    forall q | from <= q < from + |run| ensures t[q] != '/' {
      assert t[q] == run[q - from];
    }
    FindFirst(t, from, '/');
  }

  /** `%m` (regex `1[0-2]|0[1-9]|[1-9]`, followed by the slash). */
  function ParseMonth(s: string): (r: Option<int>)
    ensures r == if 1 <= |s| <= 2 && Digits(s) && 1 <= Value(s) <= 12 then Some(Value(s)) else None
  {
    if 1 <= |s| <= 2 && Digits(s) then ValueOfShort(s); ParseMonthAlternatives(s)
    else ParseMonthAlternatives(s)
  }

  function ParseMonthAlternatives(s: string): (r: Option<int>)
  {
    if |s| == 2 && s[0] == '1' && '0' <= s[1] <= '2' then Some(10 + DigitValue(s[1]))
    else if |s| == 2 && s[0] == '0' && '1' <= s[1] <= '9' then Some(DigitValue(s[1]))
    else if |s| == 1 && '1' <= s[0] <= '9' then Some(DigitValue(s[0]))
    else None
  }

  /** `%d` (regex `3[01]|[12]\d|0[1-9]|[1-9]`, followed by the slash). */
  function ParseDay(s: string): (r: Option<int>)
    ensures r == if 1 <= |s| <= 2 && Digits(s) && 1 <= Value(s) <= 31 then Some(Value(s)) else None
  {
    if 1 <= |s| <= 2 && Digits(s) then ValueOfShort(s); ParseDayAlternatives(s)
    else ParseDayAlternatives(s)
  }

  function ParseDayAlternatives(s: string): (r: Option<int>)
  {
    if |s| == 2 && s[0] == '3' && '0' <= s[1] <= '1' then Some(30 + DigitValue(s[1]))
    else if |s| == 2 && '1' <= s[0] <= '2' && IsDigit(s[1]) then Some(10 * DigitValue(s[0]) + DigitValue(s[1]))
    else if |s| == 2 && s[0] == '0' && '1' <= s[1] <= '9' then Some(DigitValue(s[1]))
    else if |s| == 1 && '1' <= s[0] <= '9' then Some(DigitValue(s[0]))
    else None
  }

  /** The century pivot of `%y`: 69-99 are 19xx, 00-68 are 20xx. */
  function Pivot(yy: nat): (r: int)
  {
    if yy <= 68 then 2000 + yy else 1900 + yy
  }

  /** `%y` (regex `\d\d`; the token must end right after it). */
  function ParseYear(s: string): (r: Option<int>)
    ensures r.Some? <==> |s| == 2 && Digits(s)
    ensures r.Some? ==> r.value == Pivot(Value(s)) && 1969 <= r.value <= 2068
  {
    if |s| == 2 && IsDigit(s[0]) && IsDigit(s[1]) then
      ValueOfShort(s);
      Some(Pivot(10 * DigitValue(s[0]) + DigitValue(s[1])))
    else None
  }

  predicate IsLeap(year: int)
  {
    year % 4 == 0 && (year % 100 != 0 || year % 400 == 0)
  }

  function DaysInMonth(year: int, month: int): (r: int)
    requires 1 <= month <= 12
  {
    if month == 2 then (if IsLeap(year) then 29 else 28)
    else if month == 4 || month == 6 || month == 9 || month == 11 then 30
    else 31
  }

  predicate ValidDate(d: Date)
  {
    1 <= d.month <= 12 && 1 <= d.day <= DaysInMonth(d.year, d.month)
  }

  /** What `strptime(token, "%m/%d/%y")` accepts, stated on the numbers:
      a month of one or two digits worth 1 to 12, a day of one or two
      digits that exists in that month, and a year of exactly two digits. */
  predicate Acceptable(f: Fields)
  {
    Digits(f.month) && Digits(f.day) && Digits(f.year)
    && |f.month| <= 2 && |f.day| <= 2 && |f.year| == 2
    && 1 <= Value(f.month) <= 12
    && 1 <= Value(f.day) <= DaysInMonth(Pivot(Value(f.year)), Value(f.month))
  }

  /** `datetime.strptime(t, "%m/%d/%y")` on a token of the `\d+/\d+/\d+`
      shape; None stands for the ValueError it raises. */
  function ParseDate(t: string): (r: Option<Date>)
    ensures r.Some? <==> DateFields(t).Some? && Acceptable(DateFields(t).value)
    ensures r.Some? ==> ValidDate(r.value) && 1969 <= r.value.year <= 2068
    ensures r.Some? ==> var f := DateFields(t).value;
      r.value == Date(Pivot(Value(f.year)), Value(f.month), Value(f.day))
  {
    match DateFields(t)
    case None => None
    case Some(f) =>
      match (ParseMonth(f.month), ParseDay(f.day), ParseYear(f.year))
      case (Some(m), Some(d), Some(y)) =>
        if d <= DaysInMonth(y, m) then Some(Date(y, m, d)) else None
      case _ => None
  }

  /** Two-digit, zero-padded rendering of a number below 100. */
  function Pad2(n: nat): (r: string)
    requires n < 100
  {
    [(('0' as int) + n / 10) as char, (('0' as int) + n % 10) as char]
  }

  /** `MM/DD/YY`, the zero-padded form of a date. */
  function FormatDate(d: Date): (r: string)
    requires ValidDate(d) && 1969 <= d.year <= 2068
  {
    Pad2(d.month) + "/" + Pad2(d.day) + "/" + Pad2(d.year % 100)
  }

  lemma Pad2Value(n: nat)
    requires n < 100
    ensures Digits(Pad2(n)) && |Pad2(n)| == 2 && Value(Pad2(n)) == n
  {
    ValueOfShort(Pad2(n));
  }

  /** Parsing inverts formatting on every date `%y` can express. */
  lemma {:induction false} ParseFormat(d: Date)
    requires ValidDate(d) && 1969 <= d.year <= 2068
    ensures ParseDate(FormatDate(d)) == Some(d)
  {
    Pad2Value(d.month);
    Pad2Value(d.day);
    Pad2Value(d.year % 100);
    DateFieldsComplete(Pad2(d.month), Pad2(d.day), Pad2(d.year % 100));
    assert Pivot(d.year % 100) == d.year;
  }

  /** Calendar order on (year, month, day), the order of `datetime` values. */
  predicate DateLe(a: Date, b: Date)
  {
    a.year < b.year
    || (a.year == b.year && (a.month < b.month || (a.month == b.month && a.day <= b.day)))
  }

  /** `DateLe` is a total order on dates: reflexive, transitive, total and
      antisymmetric, so sorting by it is well defined. */
  lemma DateLeOrder(a: Date, b: Date, c: Date)
    ensures DateLe(a, a)
    ensures DateLe(a, b) && DateLe(b, c) ==> DateLe(a, c)
    ensures DateLe(a, b) || DateLe(b, a)
    ensures DateLe(a, b) && DateLe(b, a) ==> a == b
  {
  }

  predicate AllParse(ts: seq<string>)
  {
    forall k :: 0 <= k < |ts| ==> ParseDate(ts[k]).Some?
  }

  /** The sort key of heatmapv2.py:85. */
  function Key(t: string): (r: Date)
    requires ParseDate(t).Some?
  {
    ParseDate(t).value
  }

  /** Each date is no later than the next one. */
  predicate SortedByDate(ts: seq<string>)
    requires AllParse(ts)
  {
    forall i :: 0 < i < |ts| ==> DateLe(Key(ts[i - 1]), Key(ts[i]))
  }

  /** Sorted means every date is no later than every date after it. */
  lemma {:induction false} SortedPairwise(ts: seq<string>, i: nat, j: nat)
    requires AllParse(ts) && SortedByDate(ts)
    requires i <= j < |ts|
    ensures DateLe(Key(ts[i]), Key(ts[j]))
    decreases j - i
  {
    if i < j {
      SortedPairwise(ts, i, j - 1);
    }
  }

  predicate NoDuplicates<T(==)>(s: seq<T>)
  {
    forall i, j :: 0 <= i < j < |s| ==> s[i] != s[j]
  }

  /** A token paired with its sort key, as `sorted(..., key=...)` computes
      every key before it compares any two of them. */
  type Keyed = (string, Date)

  predicate KeySorted(s: seq<Keyed>)
  {
    forall i :: 0 < i < |s| ==> DateLe(s[i - 1].1, s[i].1)
  }

  /** Inserts `p` after every entry whose key is not later (so the sort is
      stable, as Python's is). */
  function InsertByKey(p: Keyed, s: seq<Keyed>): (r: seq<Keyed>)
    requires KeySorted(s)
    ensures |r| == |s| + 1 && KeySorted(r)
    ensures r[0] == p || (|s| > 0 && r[0] == s[0])
  {
    if |s| == 0 then [p]
    else if !DateLe(s[0].1, p.1) then [p] + s
    else assert s == [s[0]] + s[1..]; [s[0]] + InsertByKey(p, s[1..])
  }

  lemma {:induction false} InsertTokens(p: Keyed, s: seq<Keyed>)
    requires KeySorted(s)
    ensures multiset(Tokens(InsertByKey(p, s))) == multiset(Tokens(s)) + multiset{p.0}
  {
    if |s| > 0 {
      TokensCons(s[0], s[1..]);
      assert [s[0]] + s[1..] == s;
      if !DateLe(s[0].1, p.1) {
        TokensCons(p, s);
      } else {
        InsertTokens(p, s[1..]);
        TokensCons(s[0], InsertByKey(p, s[1..]));
      }
    }
  }

  lemma {:induction false} InsertPermutes(p: Keyed, s: seq<Keyed>)
    requires KeySorted(s)
    ensures multiset(InsertByKey(p, s)) == multiset(s) + multiset{p}
  {
    if |s| > 0 && DateLe(s[0].1, p.1) {
      assert s == [s[0]] + s[1..];
      InsertPermutes(p, s[1..]);
    }
  }

  lemma TokensCons(x: Keyed, s: seq<Keyed>)
    ensures Tokens([x] + s) == [x.0] + Tokens(s)
  {
    assert ([x] + s)[1..] == s;
  }

  function SortByKey(s: seq<Keyed>): (r: seq<Keyed>)
    ensures KeySorted(r)
    ensures multiset(r) == multiset(s)
    ensures multiset(Tokens(r)) == multiset(Tokens(s))
  {
    if |s| == 0 then []
    else
      assert s == s[..|s| - 1] + [s[|s| - 1]];
      assert Tokens(s) == Tokens(s[..|s| - 1]) + [s[|s| - 1].0];
      InsertTokens(s[|s| - 1], SortByKey(s[..|s| - 1]));
      InsertPermutes(s[|s| - 1], SortByKey(s[..|s| - 1]));
      InsertByKey(s[|s| - 1], SortByKey(s[..|s| - 1]))
  }

  function Decorate(ts: seq<string>): (r: seq<Keyed>)
    requires AllParse(ts)
    ensures |r| == |ts|
    ensures forall i :: 0 <= i < |ts| ==> r[i] == (ts[i], Key(ts[i]))
  {
    seq(|ts|, i requires 0 <= i < |ts| => (ts[i], Key(ts[i])))
  }

  /** The tokens of a decorated list, in order. */
  function Tokens(s: seq<Keyed>): (r: seq<string>)
    ensures |r| == |s|
  {
    seq(|s|, i requires 0 <= i < |s| => s[i].0)
  }

  /** Sorting only rearranges the pairs, so each still carries its own key. */
  lemma DecoratedKeys(ts: seq<string>, q: seq<Keyed>)
    requires AllParse(ts) && multiset(q) == multiset(Decorate(ts))
    ensures forall i :: 0 <= i < |q| ==> ParseDate(q[i].0) == Some(q[i].1)
  {
    forall i | 0 <= i < |q| ensures ParseDate(q[i].0) == Some(q[i].1) {
      assert q[i] in multiset(Decorate(ts));
    }
  }

  /** `sorted(tokens, key=lambda x: strptime(x, "%m/%d/%y"))` of
      heatmapv2.py:85; the source raises before sorting when some token
      does not parse, hence the precondition. */
  function SortByDate(ts: seq<string>): (r: seq<string>)
    requires AllParse(ts)
    ensures AllParse(r) && SortedByDate(r)
    ensures multiset(r) == multiset(ts)
  {
    var d := Decorate(ts);
    var q := SortByKey(d);
    assert Tokens(d) == ts;
    DecoratedKeys(ts, q);
    Tokens(q)
  }

  lemma {:induction false} NoDuplicatesCount<T>(s: seq<T>, x: T)
    requires NoDuplicates(s)
    ensures multiset(s)[x] <= 1
  {
    if |s| > 0 {
      assert s == [s[0]] + s[1..];
      NoDuplicatesCount(s[1..], x);
      if x == s[0] {
        assert x !in s[1..];
      }
    }
  }

  /** A rearrangement of a list without repeats has no repeats. */
  lemma NoDuplicatesPermutation<T>(a: seq<T>, b: seq<T>)
    requires multiset(a) == multiset(b) && NoDuplicates(a)
    ensures NoDuplicates(b)
  {
    forall i, j | 0 <= i < j < |b| ensures b[i] != b[j] {
      if b[i] == b[j] {
        assert b == b[..j] + b[j..];
        assert b[i] in b[..j];
        assert b[j] in b[j..];
        assert multiset(b)[b[i]] == multiset(b[..j])[b[i]] + multiset(b[j..])[b[i]];
        NoDuplicatesCount(a, b[i]);
      }
    }
  }

  /** The sorted discovered dates: no repeats, ascending by calendar date. */
  lemma SortedDates(ts: seq<string>)
    requires AllParse(ts) && NoDuplicates(ts)
    ensures NoDuplicates(SortByDate(ts))
    ensures (set t | t in SortByDate(ts)) == (set t | t in ts)
  {
    NoDuplicatesPermutation(ts, SortByDate(ts));
    SameMembers(ts, SortByDate(ts));
  }

  lemma SameMembers<T>(a: seq<T>, b: seq<T>)
    requires multiset(a) == multiset(b)
    ensures (set t | t in a) == (set t | t in b)
  {
    assert forall t :: t in a <==> t in multiset(a);
    assert forall t :: t in b <==> t in multiset(b);
  }

  /** The default selection of heatmapv2.py:90: the last five dates, or all
      of them if there are fewer. */
  function DefaultSelection(sorted: seq<string>): (r: seq<string>)
    ensures |r| == if |sorted| < 5 then |sorted| else 5
    ensures sorted == sorted[..|sorted| - |r|] + r
  {
    if |sorted| >= 5 then sorted[|sorted| - 5..] else sorted
  }

  /** Of a sorted list, the default selection holds the latest dates:
      every date left out is no later than every date selected. */
  lemma DefaultSelectionIsLatest(sorted: seq<string>, i: nat, j: nat)
    requires AllParse(sorted) && SortedByDate(sorted)
    requires i < |sorted| - |DefaultSelection(sorted)| && j < |DefaultSelection(sorted)|
    ensures ParseDate(DefaultSelection(sorted)[j]).Some?
    ensures DateLe(Key(sorted[i]), Key(DefaultSelection(sorted)[j]))
  {
    var r := DefaultSelection(sorted);
    var n := |sorted| - |r|;
    assert r[j] == sorted[n + j];
    SortedPairwise(sorted, i, n + j);
  }

  /** A token made of acceptable fields parses to the date they name. */
  lemma ParseFields(m: string, d: string, y: string)
    requires Acceptable(Fields(m, d, y))
    ensures ParseDate(m + "/" + d + "/" + y) == Some(Date(Pivot(Value(y)), Value(m), Value(d)))
  {
    DateFieldsComplete(m, d, y);
  }

  /** `12/1/23` is the first of December 2023. */
  lemma ExampleDec2023(t: string)
    requires t == "12/1/23"
    ensures ParseDate(t) == Some(Date(2023, 12, 1))
  {
    ValueOfShort("12");
    ValueOfShort("1");
    ValueOfShort("23");
    ParseFields("12", "1", "23");
    assert "12" + "/" + "1" + "/" + "23" == t;
  }

  /** `1/5/24` is the fifth of January 2024. */
  lemma ExampleJan2024(t: string)
    requires t == "1/5/24"
    ensures ParseDate(t) == Some(Date(2024, 1, 5))
  {
    ValueOfShort("1");
    ValueOfShort("5");
    ValueOfShort("24");
    ParseFields("1", "5", "24");
    assert "1" + "/" + "5" + "/" + "24" == t;
  }

  /** `1/2/24` is the second of January 2024. */
  lemma ExampleShort(t: string)
    requires t == "1/2/24"
    ensures ParseDate(t) == Some(Date(2024, 1, 2))
  {
    ValueOfShort("1");
    ValueOfShort("2");
    ValueOfShort("24");
    ParseFields("1", "2", "24");
    assert "1" + "/" + "2" + "/" + "24" == t;
  }

  /** `01/02/24` is the same day, zero-padded. */
  lemma ExamplePadded(t: string)
    requires t == "01/02/24"
    ensures ParseDate(t) == Some(Date(2024, 1, 2))
  {
    TwoDigitFields("01", "02", "24", 1, 2, 24);
    ParseFields("01", "02", "24");
    assert "01" + "/" + "02" + "/" + "24" == t;
  }

  /** Three two-digit fields: their values, and whether they make a date. */
  lemma TwoDigitFields(m: string, d: string, y: string, mv: nat, dv: nat, yv: nat)
    requires |m| == 2 && |d| == 2 && |y| == 2
    requires IsDigit(m[0]) && IsDigit(m[1]) && IsDigit(d[0]) && IsDigit(d[1]) && IsDigit(y[0]) && IsDigit(y[1])
    requires mv == 10 * DigitValue(m[0]) + DigitValue(m[1]) && 1 <= mv <= 12
    requires dv == 10 * DigitValue(d[0]) + DigitValue(d[1])
    requires yv == 10 * DigitValue(y[0]) + DigitValue(y[1]) && 1 <= dv <= DaysInMonth(Pivot(yv), mv)
    ensures Acceptable(Fields(m, d, y)) && Value(m) == mv && Value(d) == dv && Value(y) == yv
  {
    ValueOfShort(m);
    ValueOfShort(d);
    ValueOfShort(y);
  }

  /** `7/4/69` is in 1969: `%y` reads 69 to 99 as 19xx. */
  lemma ExampleOldCentury(t: string)
    requires t == "7/4/69"
    ensures ParseDate(t) == Some(Date(1969, 7, 4))
  {
    ValueOfShort("7");
    ValueOfShort("4");
    ValueOfShort("69");
    ParseFields("7", "4", "69");
    assert "7" + "/" + "4" + "/" + "69" == t;
  }

  /** In calendar order `12/1/23` comes before `1/5/24`, although it comes
      after it as text. */
  lemma ExampleOrder(ts: seq<string>, i: nat, j: nat)
    requires AllParse(ts) && SortedByDate(ts)
    requires i < |ts| && j < |ts| && ts[i] == "1/5/24" && ts[j] == "12/1/23"
    ensures j < i
  {
    ExampleJan2024(ts[i]);
    ExampleDec2023(ts[j]);
    if i <= j {
      SortedPairwise(ts, i, j);
    }
  }

  /** Repeats are removed as text: `1/2/24` and `01/02/24` are two tokens
      for one day, so both are kept. */
  lemma ExampleSameDay(a: string, b: string)
    requires a == "1/2/24" && b == "01/02/24"
    ensures a != b && ParseDate(a) == ParseDate(b)
  {
    ExampleShort(a);
    ExamplePadded(b);
    assert a[0] != b[0];
  }
}
