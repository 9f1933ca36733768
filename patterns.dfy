/** The two hand-coded patterns that read a line of the chat transcript
    (heatmapv2.py:79 and 110), as searches over the line, with their meaning
    stated as a decomposition of the line. */
module Patterns {
  import opened Wrappers
  import opened Text
  import opened Dates

  /** The two groups of `^\[(\d+/\d+/\d+),.*?\] (.*?):`. */
  datatype Message = Message(date: string, sender: string)

  /** Every character of a date token is a digit or a slash. */
  lemma TokenChars(t: string)
    requires DateFields(t).Some?
    ensures forall k :: 0 <= k < |t| ==> IsDigit(t[k]) || t[k] == '/'
  {
    var f := DateFields(t).value;
    DateFieldsSound(t);
    var a := |f.month|;
    var b := a + 1 + |f.day|;
    forall k | 0 <= k < |t| ensures IsDigit(t[k]) || t[k] == '/' {
      if k < a {
        assert t[k] == f.month[k];
      } else if a < k < b {
        assert t[k] == f.day[k - a - 1];
      } else if b < k {
        assert t[k] == f.year[k - b - 1];
      }
    }
  }

  /** The pattern `^\[(\d+/\d+/\d+),` of heatmapv2.py:79: the date token of
      a line that opens with a bracketed date and a comma. */
  function DatePrefix(line: string): (r: Option<string>)
    ensures r.Some? ==> |r.value| + 2 <= |line|
  {
    if |line| > 0 && line[0] == '[' then
      match Find(line, 1, ',')
      case None => None
      case Some(k) => if DateFields(line[1..k]).Some? then Some(line[1..k]) else None
    else None
  }

  /** A token `DatePrefix` returns is a date token, and the line opens with
      it in brackets-and-comma form. */
  lemma DatePrefixSound(line: string)
    requires DatePrefix(line).Some?
    ensures DateFields(DatePrefix(line).value).Some?
    ensures line[..|DatePrefix(line).value| + 2] == "[" + DatePrefix(line).value + ","
  {
    var k := Find(line, 1, ',').value;
    FindFirst(line, 1, ',');
    assert line[..k + 1] == "[" + line[1..k] + ",";
  }

  /** A line whose first characters are `[`, a date token and a comma
      yields that token. */
  lemma DatePrefixAt(line: string, t: string)
    requires DateFields(t).Some? && |t| + 2 <= |line| && line[..|t| + 2] == "[" + t + ","
    ensures DatePrefix(line) == Some(t)
  {
    TokenChars(t);
    assert forall q :: 1 <= q < |t| + 1 ==> line[q] == line[..|t| + 2][q] == t[q - 1];
    assert line[|t| + 1] == line[..|t| + 2][|t| + 1] == ',';
    FindAt(line, 1, ',', |t| + 1);
    assert line[1..|t| + 1] == t;
  }

  /** A line that opens with `[`, a date token and a comma always yields that
      token, whatever follows. */
  lemma DatePrefixComplete(t: string, rest: string)
    requires DateFields(t).Some?
    ensures DatePrefix("[" + t + "," + rest) == Some(t)
  {
    var line := "[" + t + "," + rest;
    assert line[..|t| + 2] == "[" + t + ",";
    DatePrefixAt(line, t);
  }

  /** The lazy search `.*?pat`: the first offset at or after `from` where
      `pat` starts, unless a line break (which `.` does not match) comes
      first. */
  function FindLazy(line: string, from: nat, pat: string): (r: Option<nat>)
    requires |pat| > 0 && from <= |line|
    ensures r.Some? ==> from <= r.value && r.value + |pat| <= |line|
    decreases |line| - from
  {
    if from + |pat| > |line| then None
    else if line[from..from + |pat|] == pat then Some(from)
    else if line[from] == '\n' then None
    else FindLazy(line, from + 1, pat)
  }

  /** `FindLazy` stops at the first occurrence of `pat` and crosses no line
      break to reach it. */
  lemma {:induction false} FindLazyFirst(line: string, from: nat, pat: string)
    requires |pat| > 0 && from <= |line|
    ensures FindLazy(line, from, pat).Some? ==>
      var v := FindLazy(line, from, pat).value;
      OccursAt(pat, line, v) && forall q :: from <= q < v ==> line[q] != '\n' && !OccursAt(pat, line, q)
    decreases |line| - from
  {
    if from + |pat| <= |line| && line[from..from + |pat|] != pat && line[from] != '\n' {
      FindLazyFirst(line, from + 1, pat);
      assert !OccursAt(pat, line, from);
    } else if from + |pat| <= |line| && line[from..from + |pat|] == pat {
      assert OccursAt(pat, line, from);
    }
  }

  /** When `FindLazy` finds nothing, every occurrence of `pat` lies beyond
      a line break. */
  lemma {:induction false} FindLazyMissing(line: string, from: nat, pat: string)
    requires |pat| > 0 && pat[0] != '\n' && from <= |line|
    requires FindLazy(line, from, pat).None?
    ensures forall q :: from <= q && OccursAt(pat, line, q) ==> exists n :: from <= n < q && line[n] == '\n'
    decreases |line| - from
  {
    if from + |pat| <= |line| && line[from] != '\n' {
      FindLazyMissing(line, from + 1, pat);
    }
  }

  /** The lazy search reaches any occurrence of `pat` with no line break
      before it: it succeeds, at that occurrence or an earlier one. */
  lemma {:induction false} FindLazyReaches(line: string, from: nat, pat: string, v: nat)
    requires |pat| > 0 && from <= v && OccursAt(pat, line, v)
    requires forall q :: from <= q < v ==> line[q] != '\n'
    ensures FindLazy(line, from, pat).Some? && FindLazy(line, from, pat).value <= v
    decreases v - from
  {
    if from < v && line[from..from + |pat|] != pat {
      FindLazyReaches(line, from + 1, pat, v);
    }
  }

  /** The pattern `^\[(\d+/\d+/\d+),.*?\] (.*?):` of heatmapv2.py:110, coded
      by hand: the date token, then the lazily shortest run up to `"] "`,
      then the sender up to the first colon. */
  function ParseMessage(line: string): (r: Option<Message>)
    ensures r.Some? ==> DatePrefix(line) == Some(r.value.date)
  {
    match DatePrefix(line)
    case None => None
    case Some(t) =>
      match FindLazy(line, |t| + 2, "] ")
      case None => None
      case Some(i) =>
        match FindLazy(line, i + 2, ":")
        case None => None
        case Some(j) => Some(Message(t, line[i + 2..j]))
  }

  /** The layout the regular expression demands of a line around a date
      token: `[`, the date, `,`, a run `mid` without a line break or `"] "`,
      `"] "`, the sender without a line break or colon, `:`, anything. */
  predicate MessageShape(line: string, date: string, mid: string, sender: string, rest: string)
  {
    line == "[" + date + "," + mid + "] " + sender + ":" + rest
    && '\n' !in mid && Avoids(mid, "] ")
    && '\n' !in sender && ':' !in sender
  }

  /** `pat` occurs nowhere in `s` (Python's `pat not in s`). */
  predicate Avoids(s: string, pat: string)
  {
    forall q :: 0 <= q <= |s| ==> !OccursAt(pat, s, q)
  }

  /** The regular expression matches `line` with the groups `date` and
      `sender`: the date is a `\d+/\d+/\d+` token and the line has the
      layout above. */
  ghost predicate Matches(line: string, date: string, sender: string)
  {
    DateFields(date).Some? && exists mid, rest :: MessageShape(line, date, mid, sender, rest)
  }

  /** The lazy search finds `v` when `pat` starts there and neither a line
      break nor an earlier start of `pat` comes between `from` and `v`. */
  lemma {:induction false} FindLazyExact(line: string, from: nat, pat: string, v: nat)
    requires |pat| > 0 && from <= v && OccursAt(pat, line, v)
    requires forall q :: from <= q < v ==> line[q] != '\n' && !OccursAt(pat, line, q)
    ensures FindLazy(line, from, pat) == Some(v)
    decreases v - from
  {
    if from < v {
      assert !OccursAt(pat, line, from);
      FindLazyExact(line, from + 1, pat, v);
    }
  }

  /** Where the pieces of the decomposition sit in the line. */
  lemma Pieces(line: string, date: string, mid: string, sender: string, rest: string)
    requires line == "[" + date + "," + mid + "] " + sender + ":" + rest
    ensures var k := |date| + 2; var i := k + |mid|; var j := i + 2 + |sender|;
      j < |line| && line[..k] == "[" + date + ","
      && line[k..i] == mid && line[i..i + 2] == "] " && line[i + 2..j] == sender
      && line[j] == ':' && line[j + 1..] == rest
  {
    var tail := mid + "] " + sender + ":" + rest;
    assert line == "[" + date + "," + tail;
    assert line[..|date| + 2] == "[" + date + ",";
    assert line[|date| + 2..] == tail;
    var i := |mid|;
    assert tail[..i] == mid;
    assert tail[i..i + 2] == "] ";
    assert tail[i + 2..i + 2 + |sender|] == sender;
    assert tail[i + 2 + |sender|] == ':';
    assert tail[i + 3 + |sender|..] == rest;
  }

  /** The decomposition rebuilt from the positions the searches report. */
  lemma Assemble(line: string, k: nat, i: nat, j: nat)
    requires 2 <= k <= i && i + 2 <= j < |line|
    requires line[i..i + 2] == "] " && line[j] == ':'
    ensures line == line[..k] + line[k..i] + "] " + line[i + 2..j] + ":" + line[j + 1..]
  {
    assert line[j..j + 1] == ":";
    assert line == line[..k] + line[k..i] + line[i..i + 2] + line[i + 2..j] + line[j..j + 1] + line[j + 1..];
  }

  /** A piece of the line between the start of a search and its hit has no
      line break and no occurrence of the pattern inside it. */
  lemma Clean(line: string, lo: nat, hi: nat, pat: string)
    requires |pat| > 0 && lo <= hi <= |line|
    requires forall q :: lo <= q < hi ==> line[q] != '\n' && !OccursAt(pat, line, q)
    ensures '\n' !in line[lo..hi]
    ensures Avoids(line[lo..hi], pat)
    ensures |pat| == 1 ==> pat[0] !in line[lo..hi]
  {
    var piece := line[lo..hi];
    forall q | 0 <= q < |piece| ensures piece[q] != '\n' {
      assert piece[q] == line[lo + q];
    }
    forall q | OccursAt(pat, piece, q) ensures false {
      forall r | 0 <= r < |pat| ensures line[lo + q..lo + q + |pat|][r] == pat[r] {
        assert piece[q + r] == line[lo + q + r];
      }
      assert line[lo + q..lo + q + |pat|] == pat;
      assert OccursAt(pat, line, lo + q);
    }
    if |pat| == 1 {
      forall q | 0 <= q < |piece| ensures piece[q] != pat[0] {
        assert piece[q] == line[lo + q];
      }
    }
  }

  /** The three searches of the matcher succeed with these results. */
  predicate Found(line: string, t: string, i: nat, j: nat)
  {
    DatePrefix(line) == Some(t)
    && FindLazy(line, |t| + 2, "] ") == Some(i)
    && FindLazy(line, i + 2, ":") == Some(j)
  }

  /** The message assembled from successful searches. */
  lemma ParseFound(line: string, t: string, i: nat, j: nat)
    requires Found(line, t, i, j)
    ensures i + 2 <= j && ParseMessage(line) == Some(Message(t, line[i + 2..j]))
  {
  }

  /** A message is only produced when all three searches succeed. */
  lemma FoundOfParse(line: string)
    requires ParseMessage(line).Some?
    ensures DatePrefix(line).Some?
    ensures var t := DatePrefix(line).value;
      FindLazy(line, |t| + 2, "] ").Some?
      && Found(line, t, FindLazy(line, |t| + 2, "] ").value,
               FindLazy(line, FindLazy(line, |t| + 2, "] ").value + 2, ":").value)
  {
  }

  /** What the two lazy searches from `k` establish about the pieces they
      delimit. */
  lemma Searches(line: string, k: nat, i: nat, j: nat)
    requires k <= |line|
    requires FindLazy(line, k, "] ") == Some(i) && FindLazy(line, i + 2, ":") == Some(j)
    ensures k <= i && i + 2 <= j < |line|
    ensures line[i..i + 2] == "] " && line[j] == ':'
    ensures '\n' !in line[k..i] && Avoids(line[k..i], "] ")
    ensures '\n' !in line[i + 2..j] && ':' !in line[i + 2..j]
  {
    FindLazyFirst(line, k, "] ");
    FindLazyFirst(line, i + 2, ":");
    assert line[j..j + 1] == ":";
    Clean(line, k, i, "] ");
    Clean(line, i + 2, j, ":");
  }

  /** The two lazy searches after the date cut the rest of the line into
      the pieces of the pattern. */
  lemma ShapeOfSearches(line: string, t: string, i: nat, j: nat)
    requires |t| + 2 <= |line| && line[..|t| + 2] == "[" + t + ","
    requires FindLazy(line, |t| + 2, "] ") == Some(i) && FindLazy(line, i + 2, ":") == Some(j)
    ensures |t| + 2 <= i && i + 2 <= j < |line|
    ensures MessageShape(line, t, line[|t| + 2..i], line[i + 2..j], line[j + 1..])
  {
    Searches(line, |t| + 2, i, j);
    Assemble(line, |t| + 2, i, j);
  }

  /** Successful searches cut the line into the pieces of the pattern. */
  lemma ShapeOfFound(line: string, t: string, i: nat, j: nat)
    requires Found(line, t, i, j)
    ensures i + 2 <= j && Matches(line, t, line[i + 2..j])
  {
    DatePrefixSound(line);
    ShapeOfSearches(line, t, i, j);
  }

  /** An occurrence of `pat` in `line` that lies inside the piece
      `line[k..k + |piece|]` is an occurrence in the piece. */
  lemma OccursInPiece(line: string, k: nat, piece: string, pat: string, q: nat)
    requires k + |piece| <= |line| && line[k..k + |piece|] == piece
    requires k <= q && q + |pat| <= k + |piece| && OccursAt(pat, line, q)
    ensures OccursAt(pat, piece, q - k)
  {
    forall r | 0 <= r < |pat| ensures piece[q - k..q - k + |pat|][r] == pat[r] {
      assert piece[q - k + r] == line[q + r];
      assert line[q..q + |pat|][r] == line[q + r];
    }
    assert piece[q - k..q - k + |pat|] == pat;
  }

  /** The lazy search for `"] "` from the start of `mid` stops right after
      it, when `mid` holds neither a line break nor `"] "`. */
  lemma MidSearch(line: string, k: nat, mid: string)
    requires k + |mid| + 2 <= |line| && line[k..k + |mid|] == mid
    requires line[k + |mid|..k + |mid| + 2] == "] "
    requires '\n' !in mid && Avoids(mid, "] ")
    ensures FindLazy(line, k, "] ") == Some(k + |mid|)
  {
    var i := k + |mid|;
    forall q | k <= q < i ensures line[q] != '\n' && !OccursAt("] ", line, q) {
      assert line[q] == mid[q - k];
      if q < i - 1 && OccursAt("] ", line, q) {
        OccursInPiece(line, k, mid, "] ", q);
      } else if q == i - 1 {
        assert line[i] == line[i..i + 2][0] == ']';
      }
    }
    FindLazyExact(line, k, "] ", i);
  }

  /** The lazy search for `:` from the start of the sender stops right after
      it, when the sender holds neither a line break nor a colon. */
  lemma SenderSearch(line: string, k: nat, sender: string)
    requires k + |sender| < |line| && line[k..k + |sender|] == sender
    requires line[k + |sender|] == ':'
    requires '\n' !in sender && ':' !in sender
    ensures FindLazy(line, k, ":") == Some(k + |sender|)
  {
    var j := k + |sender|;
    forall q | k <= q < j ensures line[q] != '\n' && !OccursAt(":", line, q) {
      assert line[q] == sender[q - k];
      assert line[q..q + 1] == [line[q]];
    }
    assert line[j..j + 1] == ":";
    FindLazyExact(line, k, ":", j);
  }

  /** What the hand-coded matcher finds is a match of the pattern. */
  lemma ParseMessageSound(line: string)
    requires ParseMessage(line).Some?
    ensures Matches(line, ParseMessage(line).value.date, ParseMessage(line).value.sender)
  {
    FoundOfParse(line);
    var t := DatePrefix(line).value;
    var i := FindLazy(line, |t| + 2, "] ").value;
    var j := FindLazy(line, i + 2, ":").value;
    ParseFound(line, t, i, j);
    ShapeOfFound(line, t, i, j);
  }

  /** The matcher on a line laid out as the pattern demands, stated on
      positions. */
  lemma CompleteAt(line: string, date: string, mid: string, sender: string)
    requires DateFields(date).Some?
    requires var k := |date| + 2; var i := k + |mid|; var j := i + 2 + |sender|;
      j < |line| && line[..k] == "[" + date + ","
      && line[k..i] == mid && line[i..i + 2] == "] " && line[i + 2..j] == sender
      && line[j] == ':'
    requires '\n' !in mid && Avoids(mid, "] ") && '\n' !in sender && ':' !in sender
    ensures ParseMessage(line) == Some(Message(date, sender))
  {
    var k := |date| + 2;
    var i := k + |mid|;
    var j := i + 2 + |sender|;
    DatePrefixAt(line, date);
    MidSearch(line, k, mid);
    SenderSearch(line, i + 2, sender);
    assert Found(line, date, i, j);
    ParseFound(line, date, i, j);
  }

  /** Every match of the pattern is found, with the same groups. */
  lemma ParseMessageComplete(line: string, date: string, mid: string, sender: string, rest: string)
    requires DateFields(date).Some? && MessageShape(line, date, mid, sender, rest)
    ensures ParseMessage(line) == Some(Message(date, sender))
  {
    Pieces(line, date, mid, sender, rest);
    CompleteAt(line, date, mid, sender);
  }

  /** A piece of the line without line breaks puts none at its positions. */
  lemma NoBreakIn(line: string, lo: nat, piece: string)
    requires lo + |piece| <= |line| && line[lo..lo + |piece|] == piece && '\n' !in piece
    ensures forall q :: lo <= q < lo + |piece| ==> line[q] != '\n'
  {
    forall q | lo <= q < lo + |piece| ensures line[q] != '\n' {
      assert line[q] == piece[q - lo];
    }
  }

  /** No line break lies between the start of `mid` and the colon. */
  lemma NoBreakSpan(line: string, k: nat, mid: string, sender: string)
    requires var i := k + |mid|; var j := i + 2 + |sender|;
      j <= |line| && line[k..i] == mid && line[i..i + 2] == "] " && line[i + 2..j] == sender
    requires '\n' !in mid && '\n' !in sender
    ensures forall q :: k <= q < k + |mid| + 2 + |sender| ==> line[q] != '\n'
  {
    var i := k + |mid|;
    NoBreakIn(line, k, mid);
    NoBreakIn(line, i, "] ");
    NoBreakIn(line, i + 2, sender);
  }

  /** The matcher on a line in the language of the regular expression,
      stated on positions. */
  lemma FoundAt(line: string, date: string, mid: string, sender: string)
    requires DatePrefix(line) == Some(date)
    requires var k := |date| + 2; var i := k + |mid|; var j := i + 2 + |sender|;
      j < |line| && line[k..i] == mid && line[i..i + 2] == "] " && line[i + 2..j] == sender
      && line[j] == ':'
    requires '\n' !in mid && '\n' !in sender
    ensures ParseMessage(line).Some? && ParseMessage(line).value.date == date
  {
    var k := |date| + 2;
    var i := k + |mid|;
    var j := i + 2 + |sender|;
    NoBreakSpan(line, k, mid, sender);
    FindLazyReaches(line, k, "] ", i);
    var i' := FindLazy(line, k, "] ").value;
    assert line[j..j + 1] == ":";
    FindLazyReaches(line, i' + 2, ":", j);
  }

  /** Every line in the language of the regular expression is matched, with
      its date group: `mid` and the sender need only be free of line breaks,
      since a later `"] "` or colon can never succeed where the first one
      fails. */
  lemma RegexMatchFound(line: string, date: string, mid: string, sender: string, rest: string)
    requires DateFields(date).Some?
    requires line == "[" + date + "," + mid + "] " + sender + ":" + rest
    requires '\n' !in mid && '\n' !in sender
    ensures ParseMessage(line).Some? && ParseMessage(line).value.date == date
  {
    Pieces(line, date, mid, sender, rest);
    DatePrefixAt(line, date);
    FoundAt(line, date, mid, sender);
  }
}
