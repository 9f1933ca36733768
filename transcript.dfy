/** Reading the uploaded chat transcript (heatmapv2.py:79-85, 110-117): the
    discovery of the date tokens, and the per-sender, per-date message
    counts. Both loops read each line once, through the patterns of the
    Patterns module. */
module Transcript {
  import opened Wrappers
  import opened Text
  import opened Dates
  import opened Patterns

  /** The date token each line opens with, as the pattern of heatmapv2.py:79
      reads it. */
  function Prefixes(lines: seq<string>): (r: seq<Option<string>>)
    ensures |r| == |lines|
  {
    seq(|lines|, i requires 0 <= i < |lines| => DatePrefix(lines[i]))
  }

  /** The tokens among the per-line results. */
  function TokenSet(ps: seq<Option<string>>): (r: set<string>)
  {
    if |ps| == 0 then {}
    else TokenSet(ps[..|ps| - 1]) + (match ps[|ps| - 1] case Some(t) => {t} case None => {})
  }

  lemma {:induction false} TokenSetMembers(ps: seq<Option<string>>, t: string)
    ensures t in TokenSet(ps) <==> exists i :: 0 <= i < |ps| && ps[i] == Some(t)
  {
    if |ps| > 0 {
      var prev := ps[..|ps| - 1];
      TokenSetMembers(prev, t);
      if t in TokenSet(prev) {
        var i :| 0 <= i < |prev| && prev[i] == Some(t);
        assert ps[i] == Some(t);
      }
      if exists i :: 0 <= i < |ps| && ps[i] == Some(t) {
        var i :| 0 <= i < |ps| && ps[i] == Some(t);
        if i < |prev| {
          assert prev[i] == Some(t);
        }
      }
    }
  }

  /** The set that heatmapv2.py:80-84 collects. */
  function DateTokens(lines: seq<string>): (r: set<string>)
  {
    TokenSet(Prefixes(lines))
  }

  /** The collected set holds exactly the tokens some line opens with. */
  lemma DateTokensMembers(lines: seq<string>, t: string)
    ensures t in DateTokens(lines) <==> exists i :: 0 <= i < |lines| && DatePrefix(lines[i]) == Some(t)
  {
    var ps := Prefixes(lines);
    TokenSetMembers(ps, t);
    if exists i :: 0 <= i < |lines| && DatePrefix(lines[i]) == Some(t) {
      var i :| 0 <= i < |lines| && DatePrefix(lines[i]) == Some(t);
      assert ps[i] == Some(t);
    }
  }

  /** The key computation of `sorted` at heatmapv2.py:85: `strptime` on
      each token in turn, stopping at the first one it rejects. */
  method CheckTokens(ts: seq<string>) returns (bad: Option<nat>)
    ensures bad.Some? ==> bad.value < |ts| && ParseDate(ts[bad.value]).None?
    ensures bad.None? ==> AllParse(ts)
  {
    var j := 0;
    while j < |ts|
      invariant 0 <= j <= |ts|
      invariant forall k :: 0 <= k < j ==> ParseDate(ts[k]).Some?
    {
      if ParseDate(ts[j]).None? {
        return Some(j);
      }
      j := j + 1;
    }
    return None;
  }

  /** heatmapv2.py:79-85: collects the date tokens that open bracketed lines,
      without repeats, and sorts them by calendar date. Python's set has no
      fixed order; here it is the order of first appearance, which only
      decides the order of tokens naming the same day. A token `strptime`
      rejects makes the sort raise; that is the Failure result. */
  method DiscoverDates(lines: seq<string>) returns (r: Result<seq<string>, string>)
    ensures r.Success? <==> forall t :: t in DateTokens(lines) ==> ParseDate(t).Some?
    ensures r.Success? ==>
      AllParse(r.value) && SortedByDate(r.value) && NoDuplicates(r.value)
      && (set t | t in r.value) == DateTokens(lines)
    ensures r.Failure? ==> r.error in DateTokens(lines) && ParseDate(r.error).None?
  {
    ghost var ps := Prefixes(lines);
    var unique: seq<string> := [];
    var i := 0;
    while i < |lines|
      invariant 0 <= i <= |lines|
      invariant NoDuplicates(unique)
      invariant (set t | t in unique) == TokenSet(ps[..i])
    {
      assert ps[..i + 1][..i] == ps[..i];
      assert ps[i] == DatePrefix(lines[i]);
      match DatePrefix(lines[i]) {
        case Some(t) =>
          if t !in unique {
            unique := unique + [t];
          }
        case None =>
      }
      i := i + 1;
    }
    assert ps[..|lines|] == ps;
    var bad := CheckTokens(unique);
    match bad {
      case Some(k) =>
        assert unique[k] in DateTokens(lines);
        r := Failure(unique[k]);
      case None =>
        SortedDates(unique);
        r := Success(SortByDate(unique));
    }
  }

  /** The match of the pattern of heatmapv2.py:110 on each line. */
  function Messages(lines: seq<string>): (r: seq<Option<Message>>)
    ensures |r| == |lines|
  {
    seq(|lines|, i requires 0 <= i < |lines| => ParseMessage(lines[i]))
  }

  /** A match that counts for `sender` on `date`: senders are compared
      stripped, as heatmapv2.py:117 keys them. */
  predicate Hit(m: Option<Message>, sender: string, date: string)
  {
    m.Some? && m.value.date == date && Strip(m.value.sender) == sender
  }

  /** How many of the matches count for `sender` on `date`. */
  function CountOf(ms: seq<Option<Message>>, sender: string, date: string): (r: nat)
  {
    if |ms| == 0 then 0
    else
      var last := if Hit(ms[|ms| - 1], sender, date) then 1 else 0;
      CountOf(ms[..|ms| - 1], sender, date) + last
  }

  /** How many lines of the transcript are messages of `sender` on `date`. */
  function Count(lines: seq<string>, sender: string, date: string): (r: nat)
  {
    CountOf(Messages(lines), sender, date)
  }

  /** The key a match is filed under when its date is selected
      (heatmapv2.py:114-117). */
  function Filed(m: Option<Message>, selected: seq<string>): (r: Option<string>)
  {
    if m.Some? && m.value.date in selected then Some(Strip(m.value.sender)) else None
  }

  /** The insertion order of the dictionary after one more match. */
  function SendersStep(before: seq<string>, m: Option<Message>, selected: seq<string>): (r: seq<string>)
  {
    match Filed(m, selected)
    case Some(s) => if s in before then before else before + [s]
    case None => before
  }

  /** The keys of `sender_date_counts` in insertion order: the stripped
      senders of matches on selected dates, in order of first appearance. */
  function SendersOf(ms: seq<Option<Message>>, selected: seq<string>): (r: seq<string>)
  {
    if |ms| == 0 then []
    else SendersStep(SendersOf(ms[..|ms| - 1], selected), ms[|ms| - 1], selected)
  }

  /** Each sender is a key once. */
  lemma {:induction false} SendersOfNoDuplicates(ms: seq<Option<Message>>, selected: seq<string>)
    ensures NoDuplicates(SendersOf(ms, selected))
  {
    if |ms| > 0 {
      SendersOfNoDuplicates(ms[..|ms| - 1], selected);
    }
  }

  function Senders(lines: seq<string>, selected: seq<string>): (r: seq<string>)
  {
    SendersOf(Messages(lines), selected)
  }

  /** The keys are exactly the stripped senders of matches on selected
      dates. */
  lemma {:induction false} SendersOfMembers(ms: seq<Option<Message>>, selected: seq<string>, s: string)
    ensures s in SendersOf(ms, selected) <==> exists i :: 0 <= i < |ms| && Filed(ms[i], selected) == Some(s)
  {
    if |ms| > 0 {
      var prev := ms[..|ms| - 1];
      SendersOfMembers(prev, selected, s);
      if s in SendersOf(prev, selected) {
        var i :| 0 <= i < |prev| && Filed(prev[i], selected) == Some(s);
        assert ms[i] == prev[i];
      }
      if exists i :: 0 <= i < |ms| && Filed(ms[i], selected) == Some(s) {
        var i :| 0 <= i < |ms| && Filed(ms[i], selected) == Some(s);
        if i < |prev| {
          assert prev[i] == ms[i];
        }
      }
    }
  }

  /** The keys come in order of first appearance: some match filed under
      an earlier key comes before every match filed under a later one. */
  lemma {:induction false} SendersOfOrder(ms: seq<Option<Message>>, selected: seq<string>, p: nat, q: nat)
    requires p < q < |SendersOf(ms, selected)|
    ensures var keys := SendersOf(ms, selected);
      exists i :: 0 <= i < |ms| && Filed(ms[i], selected) == Some(keys[p])
        && forall j :: 0 <= j <= i ==> Filed(ms[j], selected) != Some(keys[q])
  {
    var keys := SendersOf(ms, selected);
    var prev := ms[..|ms| - 1];
    var before := SendersOf(prev, selected);
    if q < |before| {
      assert keys[p] == before[p] && keys[q] == before[q];
      SendersOfOrder(prev, selected, p, q);
      var i :| 0 <= i < |prev| && Filed(prev[i], selected) == Some(before[p])
        && forall j :: 0 <= j <= i ==> Filed(prev[j], selected) != Some(before[q]);
      assert Filed(ms[i], selected) == Some(keys[p]);
      forall j | 0 <= j <= i ensures Filed(ms[j], selected) != Some(keys[q]) {
        assert ms[j] == prev[j];
      }
    } else {
      assert keys == before + [keys[q]] && keys[q] !in before;
      SendersOfMembers(prev, selected, keys[p]);
      SendersOfMembers(prev, selected, keys[q]);
      var i :| 0 <= i < |prev| && Filed(prev[i], selected) == Some(keys[p]);
      assert Filed(ms[i], selected) == Some(keys[p]);
      forall j | 0 <= j <= i ensures Filed(ms[j], selected) != Some(keys[q]) {
        assert ms[j] == prev[j];
      }
    }
  }

  /** The same, stated on the lines of the transcript. */
  lemma SendersMembers(lines: seq<string>, selected: seq<string>, s: string)
    ensures s in Senders(lines, selected) <==>
      exists i :: 0 <= i < |lines| && Filed(ParseMessage(lines[i]), selected) == Some(s)
  {
    var ms := Messages(lines);
    SendersOfMembers(ms, selected, s);
    if exists i :: 0 <= i < |lines| && Filed(ParseMessage(lines[i]), selected) == Some(s) {
      var i :| 0 <= i < |lines| && Filed(ParseMessage(lines[i]), selected) == Some(s);
      assert ms[i] == ParseMessage(lines[i]);
    }
  }

  /** `{date: 0 for date in selected_dates}`, the defaultdict's factory. */
  function Zeros(selected: seq<string>): (r: map<string, nat>)
    ensures forall d :: d in r <==> d in selected
    ensures forall d :: d in r ==> r[d] == 0
  {
    map d | d in selected :: 0
  }

  /** Every row is dense over the selected dates. */
  ghost predicate Dense(counts: map<string, map<string, nat>>, selected: seq<string>)
  {
    forall s, d :: s in counts ==> (d in counts[s] <==> d in selected)
  }

  /** The dictionary after one more match: the match's cell goes up by one,
      its row created as zeros on first use. */
  function TallyStep(prev: map<string, map<string, nat>>, m: Option<Message>, selected: seq<string>): (r: map<string, map<string, nat>>)
    requires Dense(prev, selected)
    ensures Dense(r, selected)
  {
    match Filed(m, selected)
    case Some(s) =>
      var row := if s in prev then prev[s] else Zeros(selected);
      prev[s := row[m.value.date := row[m.value.date] + 1]]
    case None => prev
  }

  /** The dictionary heatmapv2.py:111-117 has built after the matches `ms`. */
  function TallyOf(ms: seq<Option<Message>>, selected: seq<string>): (r: map<string, map<string, nat>>)
    ensures Dense(r, selected)
  {
    if |ms| == 0 then map[]
    else TallyStep(TallyOf(ms[..|ms| - 1], selected), ms[|ms| - 1], selected)
  }

  /** The dictionary's keys are the senders in the insertion order. */
  lemma {:induction false} TallyKeys(ms: seq<Option<Message>>, selected: seq<string>)
    ensures forall s :: s in TallyOf(ms, selected) <==> s in SendersOf(ms, selected)
  {
    if |ms| > 0 {
      TallyKeys(ms[..|ms| - 1], selected);
    }
  }

  /** Reading one more match applies one step to both. */
  lemma Next(ms: seq<Option<Message>>, i: nat, selected: seq<string>)
    requires i < |ms|
    ensures TallyOf(ms[..i + 1], selected) == TallyStep(TallyOf(ms[..i], selected), ms[i], selected)
    ensures SendersOf(ms[..i + 1], selected) == SendersStep(SendersOf(ms[..i], selected), ms[i], selected)
  {
    assert ms[..i + 1][..i] == ms[..i];
  }

  /** A stripped sender that is not a key has count zero on every selected
      date: only matches on selected dates create keys. */
  lemma {:induction false} CountOutsideSenders(ms: seq<Option<Message>>, selected: seq<string>, sender: string, date: string)
    requires date in selected && sender !in SendersOf(ms, selected)
    ensures CountOf(ms, sender, date) == 0
  {
    if |ms| > 0 {
      CountOutsideSenders(ms[..|ms| - 1], selected, sender, date);
    }
  }

  /** The dictionary has one entry per key, and each cell holds the number
      of matches of that sender on that date. */
  lemma {:induction false} TallyCounts(ms: seq<Option<Message>>, selected: seq<string>)
    ensures forall s, d :: s in TallyOf(ms, selected) && d in TallyOf(ms, selected)[s] ==>
      TallyOf(ms, selected)[s][d] == CountOf(ms, s, d)
  {
    if |ms| > 0 {
      var prev := ms[..|ms| - 1];
      TallyCounts(prev, selected);
      TallyKeys(prev, selected);
      var before := TallyOf(prev, selected);
      var after := TallyOf(ms, selected);
      forall s, d | s in after && d in after[s] ensures after[s][d] == CountOf(ms, s, d) {
        if s !in before {
          CountOutsideSenders(prev, selected, s, d);
        }
      }
    }
  }

  /** One more line adds one to the count of the (stripped sender, date)
      pair of its match, and nothing to any other pair. */
  lemma CountsAppend(lines: seq<string>, line: string, sender: string, date: string)
    ensures Count(lines + [line], sender, date) ==
      Count(lines, sender, date) + if Hit(ParseMessage(line), sender, date) then 1 else 0
  {
    var ms := Messages(lines + [line]);
    assert ms[..|ms| - 1] == Messages(lines);
    assert ms[|ms| - 1] == ParseMessage(line);
  }

  /** A line that does not match, or matches on a date that is not
      selected, leaves the keys and every selected count as they were. */
  lemma IgnoredLine(lines: seq<string>, line: string, selected: seq<string>)
    requires Filed(ParseMessage(line), selected).None?
    ensures Senders(lines + [line], selected) == Senders(lines, selected)
    ensures forall s, d :: d in selected ==> Count(lines + [line], s, d) == Count(lines, s, d)
  {
    var ms := Messages(lines + [line]);
    assert ms[..|ms| - 1] == Messages(lines);
    assert ms[|ms| - 1] == ParseMessage(line);
  }

  /** A positive count is witnessed by a line of the transcript that is a
      message of that sender on that date. */
  lemma {:induction false} CountWitness(lines: seq<string>, sender: string, date: string)
    requires Count(lines, sender, date) > 0
    ensures exists i :: 0 <= i < |lines| && Hit(ParseMessage(lines[i]), sender, date)
  {
    var ms := Messages(lines);
    var prev := lines[..|lines| - 1];
    assert Messages(prev) == ms[..|ms| - 1];
    if Hit(ms[|ms| - 1], sender, date) {
      assert ms[|lines| - 1] == ParseMessage(lines[|lines| - 1]);
    } else {
      CountWitness(prev, sender, date);
      var i :| 0 <= i < |prev| && Hit(ParseMessage(prev[i]), sender, date);
      assert lines[i] == prev[i];
    }
  }

  /** The body of the loop of heatmapv2.py:111-117 for one match: a match
      on a selected date adds one to its stripped sender's cell, creating
      the row (and the key) on first use. */
  method Record(keys: seq<string>, counts: map<string, map<string, nat>>, m: Option<Message>, selected: seq<string>)
    returns (keys': seq<string>, counts': map<string, map<string, nat>>)
    requires Dense(counts, selected)
    requires forall s :: s in counts <==> s in keys
    ensures keys' == SendersStep(keys, m, selected)
    ensures counts' == TallyStep(counts, m, selected)
  {
    keys', counts' := keys, counts;
    if m.Some? && m.value.date in selected {
      var sender := Strip(m.value.sender);
      // the defaultdict hands out a zero row for a sender it has not seen
      var row := if sender in counts then counts[sender] else Zeros(selected);
      if sender !in counts {
        keys' := keys + [sender];
      }
      counts' := counts[sender := row[m.value.date := row[m.value.date] + 1]];
    }
  }

  /** heatmapv2.py:110-117: counts the messages of each stripped sender on
      each selected date. `keys` is the insertion order of the dictionary. */
  method CountMessages(lines: seq<string>, selected: seq<string>)
    returns (keys: seq<string>, counts: map<string, map<string, nat>>)
    ensures keys == Senders(lines, selected)
    ensures forall s :: s in counts <==> s in keys
    ensures Dense(counts, selected)
    ensures forall s, d :: s in counts && d in counts[s] ==> counts[s][d] == Count(lines, s, d)
  {
    ghost var ms := Messages(lines);
    keys, counts := [], map[];
    var i := 0;
    while i < |lines|
      invariant 0 <= i <= |lines|
      invariant keys == SendersOf(ms[..i], selected)
      invariant counts == TallyOf(ms[..i], selected)
    {
      Next(ms, i, selected);
      TallyKeys(ms[..i], selected);
      var m := ParseMessage(lines[i]);
      assert m == ms[i];
      keys, counts := Record(keys, counts, m, selected);
      i := i + 1;
    }
    assert ms[..|lines|] == ms;
    TallyKeys(ms, selected);
    TallyCounts(ms, selected);
  }
}
