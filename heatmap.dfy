/** The activity matrix of the dashboard (heatmapv2.py:138-155) and the run
    that produces it when the heatmap is refreshed (heatmapv2.py:110-160):
    one row per roster name, one column per selected date, each cell in
    one of three states, and the selected dates written out as one line. */
module Heatmap {
  import opened Wrappers
  import opened Text
  import opened Dates
  import opened Patterns
  import opened Transcript
  import opened Names

  /** The value of a cell; the source stores 0, 0.5 and 1. */
  datatype Status = NonActive | Unavailable | Active

  /** The rule of heatmapv2.py:147-152. */
  function CellStatus(unavailable: bool, count: nat): (r: Status)
  {
    if unavailable then Unavailable else if count > 0 then Active else NonActive
  }

  /** The earliest key (in the dictionary's order) whose target is `name`. */
  function FirstTo(keys: seq<string>, mapping: map<string, string>, name: string): (r: Option<nat>)
    requires forall k :: k in keys ==> k in mapping
    ensures r.Some? ==> r.value < |keys|
  {
    if |keys| == 0 then None
    else if mapping[keys[0]] == name then Some(0)
    else Offset(FirstTo(keys[1..], mapping, name), 1)
  }

  /** `FirstTo` is the first key with that target, and None exactly when no
      key has it. */
  lemma {:induction false} FirstToSpec(keys: seq<string>, mapping: map<string, string>, name: string)
    requires forall k :: k in keys ==> k in mapping
    ensures FirstTo(keys, mapping, name).Some? ==>
      var i := FirstTo(keys, mapping, name).value;
      mapping[keys[i]] == name && forall q :: 0 <= q < i ==> mapping[keys[q]] != name
    ensures FirstTo(keys, mapping, name).None? <==> forall q :: 0 <= q < |keys| ==> mapping[keys[q]] != name
  {
    if |keys| > 0 && mapping[keys[0]] != name {
      FirstToSpec(keys[1..], mapping, name);
      assert forall q :: 1 <= q < |keys| ==> keys[q] == keys[1..][q - 1];
    }
  }

  /** The counts heatmapv2.py:140-144 reads for a roster name: those of the
      first key mapped to it, else those of a key spelled like it, else
      zeros. */
  function RowFor(keys: seq<string>, mapping: map<string, string>, counts: map<string, map<string, nat>>,
                  selected: seq<string>, name: string): (r: map<string, nat>)
    requires forall k :: k in keys ==> k in mapping && k in counts
  {
    match FirstTo(keys, mapping, name)
    case Some(i) => counts[keys[i]]
    case None => if name in counts then counts[name] else Zeros(selected)
  }

  /** The search from position `i` looks at `i` and then moves on. */
  lemma FirstToFrom(keys: seq<string>, mapping: map<string, string>, name: string, i: nat)
    requires forall k :: k in keys ==> k in mapping
    requires i < |keys|
    ensures FirstTo(keys[i..], mapping, name) ==
      if mapping[keys[i]] == name then Some(0) else Offset(FirstTo(keys[i + 1..], mapping, name), 1)
  {
    assert keys[i..][0] == keys[i];
    assert keys[i..][1..] == keys[i + 1..];
  }

  /** heatmapv2.py:140-144: the default from `.get`, replaced by the row of
      the first entry of `name_mapping` whose target is `name`. */
  method SourceRow(keys: seq<string>, mapping: map<string, string>, counts: map<string, map<string, nat>>,
                   selected: seq<string>, name: string) returns (row: map<string, nat>)
    requires forall k :: k in keys ==> k in mapping && k in counts
    ensures row == RowFor(keys, mapping, counts, selected, name)
  {
    row := if name in counts then counts[name] else Zeros(selected);
    var i := 0;
    assert keys[0..] == keys;
    while i < |keys|
      invariant 0 <= i <= |keys|
      invariant FirstTo(keys, mapping, name) == Offset(FirstTo(keys[i..], mapping, name), i)
    {
      FirstToFrom(keys, mapping, name, i);
      if mapping[keys[i]] == name {
        row := counts[keys[i]];
        break;
      }
      i := i + 1;
    }
  }

  /** heatmapv2.py:145-152: the cells of one roster name, in the order of
      the selected dates. */
  method BuildRow(name: string, selected: seq<string>, unavailable: map<string, seq<string>>,
                  counts: map<string, nat>) returns (row: seq<Status>)
    requires forall d :: d in selected ==> d in unavailable && d in counts
    ensures |row| == |selected|
    ensures forall j :: 0 <= j < |selected| ==>
      row[j] == CellStatus(name in unavailable[selected[j]], counts[selected[j]])
  {
    row := [];
    var j := 0;
    while j < |selected|
      invariant 0 <= j <= |selected| && |row| == j
      invariant forall q :: 0 <= q < j ==>
        row[q] == CellStatus(name in unavailable[selected[q]], counts[selected[q]])
    {
      var date := selected[j];
      if name in unavailable[date] {
        row := row + [Unavailable];
      } else if counts[date] > 0 {
        row := row + [Active];
      } else {
        row := row + [NonActive];
      }
      j := j + 1;
    }
  }

  /** The cell of roster name `name` on selected date `d`. */
  function CellFor(keys: seq<string>, mapping: map<string, string>, counts: map<string, map<string, nat>>,
                   selected: seq<string>, unavailable: map<string, seq<string>>, name: string, d: string): (r: Status)
    requires forall k :: k in keys ==> k in mapping && k in counts
    requires d in unavailable
    requires Dense(counts, selected) && d in selected
  {
    CellStatus(name in unavailable[d], RowFor(keys, mapping, counts, selected, name)[d])
  }

  /** heatmapv2.py:138-153: `heatmap_data`, one row per roster name in
      roster order. */
  method BuildMatrix(roster: seq<string>, selected: seq<string>, unavailable: map<string, seq<string>>,
                     keys: seq<string>, mapping: map<string, string>, counts: map<string, map<string, nat>>)
    returns (matrix: seq<seq<Status>>)
    requires forall d :: d in selected ==> d in unavailable
    requires forall k :: k in keys ==> k in mapping && k in counts
    requires Dense(counts, selected)
    ensures |matrix| == |roster|
    ensures forall i :: 0 <= i < |roster| ==> |matrix[i]| == |selected|
    ensures forall i, j :: 0 <= i < |roster| && 0 <= j < |selected| ==>
      matrix[i][j] == CellFor(keys, mapping, counts, selected, unavailable, roster[i], selected[j])
  {
    matrix := [];
    var i := 0;
    while i < |roster|
      invariant 0 <= i <= |roster| && |matrix| == i
      invariant forall q :: 0 <= q < i ==> |matrix[q]| == |selected|
      invariant forall q, j :: 0 <= q < i && 0 <= j < |selected| ==>
        matrix[q][j] == CellFor(keys, mapping, counts, selected, unavailable, roster[q], selected[j])
    {
      var source := SourceRow(keys, mapping, counts, selected, roster[i]);
      var row := BuildRow(roster[i], selected, unavailable, source);
      matrix := matrix + [row];
      i := i + 1;
    }
  }

  /** The name mapping that heatmapv2.py:124-136 builds for the keys. */
  function Resolved(cfg: Config, keys: seq<string>): (r: map<string, string>)
    ensures forall k :: k in keys ==> k in r
  {
    map k | k in keys :: Resolve(cfg, k)
  }

  /** The key whose counts a roster name shows, if any. */
  function Source(cfg: Config, keys: seq<string>, name: string): (r: Option<string>)
  {
    match FirstTo(keys, Resolved(cfg, keys), name)
    case Some(i) => Some(keys[i])
    case None => if name in keys then Some(name) else None
  }

  /** The source is the earliest key resolving to the name; later keys
      with the same target are ignored. */
  lemma SourceFirst(cfg: Config, keys: seq<string>, name: string, i: nat)
    requires i < |keys| && Resolve(cfg, keys[i]) == name
    requires forall q :: 0 <= q < i ==> Resolve(cfg, keys[q]) != name
    ensures Source(cfg, keys, name) == Some(keys[i])
  {
    var m := Resolved(cfg, keys);
    FirstToSpec(keys, m, name);
    assert m[keys[i]] == name;
    var j := FirstTo(keys, m, name).value;
    assert !(j < i) && !(i < j);
  }

  /** With no key resolving to the name, the key spelled like the name is
      the source, and without one there is none. */
  lemma SourceFallback(cfg: Config, keys: seq<string>, name: string)
    requires forall q :: 0 <= q < |keys| ==> Resolve(cfg, keys[q]) != name
    ensures Source(cfg, keys, name) == if name in keys then Some(name) else None
  {
    var m := Resolved(cfg, keys);
    FirstToSpec(keys, m, name);
  }

  /** A source is a key that resolves to the name or is spelled like it. */
  lemma SourceTarget(cfg: Config, keys: seq<string>, name: string)
    requires Source(cfg, keys, name).Some?
    ensures Source(cfg, keys, name).value in keys
    ensures Resolve(cfg, Source(cfg, keys, name).value) == name || Source(cfg, keys, name).value == name
  {
    FirstToSpec(keys, Resolved(cfg, keys), name);
  }

  /** The number of messages behind the cell of `name` on `d`. */
  function ActivityCount(cfg: Config, lines: seq<string>, selected: seq<string>, name: string, d: string): (r: nat)
  {
    match Source(cfg, Senders(lines, selected), name)
    case Some(s) => Count(lines, s, d)
    case None => 0
  }

  /** The cell of `name` on `d` that the refresh of heatmapv2.py:110-155
      computes from the transcript. */
  function Expected(cfg: Config, lines: seq<string>, selected: seq<string>,
                    unavailable: map<string, seq<string>>, name: string, d: string): (r: Status)
    requires d in unavailable
  {
    CellStatus(name in unavailable[d], ActivityCount(cfg, lines, selected, name, d))
  }

  /** The three states: a listed name is Unavailable whatever its count;
      otherwise the cell is Active exactly when the count is positive. */
  lemma CellRule(cfg: Config, lines: seq<string>, selected: seq<string>,
                 unavailable: map<string, seq<string>>, name: string, d: string)
    requires d in unavailable
    ensures Expected(cfg, lines, selected, unavailable, name, d) == Unavailable <==> name in unavailable[d]
    ensures Expected(cfg, lines, selected, unavailable, name, d) == Active <==>
      name !in unavailable[d] && ActivityCount(cfg, lines, selected, name, d) > 0
    ensures Expected(cfg, lines, selected, unavailable, name, d) == NonActive <==>
      name !in unavailable[d] && ActivityCount(cfg, lines, selected, name, d) == 0
  {
  }

  /** An Active cell is backed by a line of the transcript: a message on
      that date from a sender that resolves to the name or is spelled like
      it. Senders that do neither never light up the name's row. */
  lemma ActiveWitness(cfg: Config, lines: seq<string>, selected: seq<string>,
                      unavailable: map<string, seq<string>>, name: string, d: string)
    requires d in unavailable
    requires Expected(cfg, lines, selected, unavailable, name, d) == Active
    ensures exists s, i ::
      0 <= i < |lines| && Hit(ParseMessage(lines[i]), s, d) && (Resolve(cfg, s) == name || s == name)
  {
    var keys := Senders(lines, selected);
    SourceTarget(cfg, keys, name);
    var s := Source(cfg, keys, name).value;
    CountWitness(lines, s, d);
  }

  /** The counts the matrix reads for a roster name are the message counts
      of its source. */
  lemma RowForCount(cfg: Config, lines: seq<string>, selected: seq<string>, keys: seq<string>,
                    counts: map<string, map<string, nat>>, name: string, d: string)
    requires keys == Senders(lines, selected) && d in selected
    requires forall s :: s in counts <==> s in keys
    requires Dense(counts, selected)
    requires forall s, e :: s in counts && e in counts[s] ==> counts[s][e] == Count(lines, s, e)
    ensures d in RowFor(keys, Resolved(cfg, keys), counts, selected, name)
    ensures RowFor(keys, Resolved(cfg, keys), counts, selected, name)[d] == ActivityCount(cfg, lines, selected, name, d)
  {
  }

  /** The selected dates as heatmapv2.py:160 writes them. */
  function DateFile(selected: seq<string>): (r: string)
  {
    Join(selected, ',')
  }

  /** Reading the file back as heatmapv2.py:46 does gives the selection
      again, for any nonempty list of date tokens: they hold no comma and
      no whitespace. */
  lemma DateFileRoundTrip(selected: seq<string>)
    requires |selected| >= 1
    requires forall k :: 0 <= k < |selected| ==> DateFields(selected[k]).Some?
    ensures Split(Strip(DateFile(selected)), ',') == selected
  {
    forall k | 0 <= k < |selected| ensures NoSpace(selected[k]) && ',' !in selected[k] {
      TokenChars(selected[k]);
    }
    JoinNoSpace(selected, ',');
    StripNoSpace(DateFile(selected));
    SplitJoin(selected, ',');
  }

  /** Why `DateFileRoundTrip` requires a nonempty list: an empty list is
      written as the empty string, which reads back as one empty token. */
  lemma EmptySelectionNotRestored()
    ensures Split(Strip(DateFile([])), ',') == [""]
  {
    assert Strip("") == "";
  }

  /** heatmapv2.py:110-160, the refresh once the password is accepted:
      count the messages, map the senders to the roster, build one row per
      roster name, and write out the selected dates. `unavailable` holds
      the names ticked for each selected date. */
  method Refresh(cfg: Config, lines: seq<string>, selected: seq<string>, unavailable: map<string, seq<string>>)
    returns (matrix: seq<seq<Status>>, dateFile: string)
    requires |selected| > 0
    requires forall d :: d in selected ==> d in unavailable
    ensures |matrix| == |cfg.roster|
    ensures forall i :: 0 <= i < |cfg.roster| ==> |matrix[i]| == |selected|
    ensures forall i, j :: 0 <= i < |cfg.roster| && 0 <= j < |selected| ==>
      matrix[i][j] == Expected(cfg, lines, selected, unavailable, cfg.roster[i], selected[j])
    ensures dateFile == DateFile(selected)
    ensures (forall k :: 0 <= k < |selected| ==> DateFields(selected[k]).Some?) ==>
      Split(Strip(dateFile), ',') == selected
  {
    var keys, counts := CountMessages(lines, selected);
    var mapping := BuildNameMapping(cfg, keys);
    assert mapping == Resolved(cfg, keys);
    matrix := BuildMatrix(cfg.roster, selected, unavailable, keys, mapping, counts);
    forall i, j | 0 <= i < |cfg.roster| && 0 <= j < |selected|
      ensures matrix[i][j] == Expected(cfg, lines, selected, unavailable, cfg.roster[i], selected[j])
    {
      RowForCount(cfg, lines, selected, keys, counts, cfg.roster[i], selected[j]);
    }
    dateFile := Join(selected, ',');
    if forall k :: 0 <= k < |selected| ==> DateFields(selected[k]).Some? {
      DateFileRoundTrip(selected);
    }
  }
}
