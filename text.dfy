/** The string primitives the dashboard relies on, with Python's meaning:
    `str.strip()`, ASCII `str.lower()`, the `in` substring test, a
    one-character search used by the hand-coded patterns, and
    `str.split(sep)` / `sep.join(parts)` for a one-character separator. */
module Text {
  import opened Wrappers

  /** Python's `str.isspace()` for one character: the characters `strip()`
      removes when called without an argument. */
  predicate IsSpace(c: char)
  {
    c == ' ' || ('\t' <= c <= '\r') || ('\U{1C}' <= c <= '\U{1F}')
    || c == '\U{85}' || c == '\U{A0}' || c == '\U{1680}'
    || ('\U{2000}' <= c <= '\U{200A}') || c == '\U{2028}' || c == '\U{2029}'
    || c == '\U{202F}' || c == '\U{205F}' || c == '\U{3000}'
  }

  predicate NoSpace(s: string)
  {
    forall k :: 0 <= k < |s| ==> !IsSpace(s[k])
  }

  /** Index of the first non-whitespace character at or after `i`. */
  function SkipSpace(s: string, i: nat): (r: nat)
    requires i <= |s|
    ensures i <= r <= |s|
    decreases |s| - i
  {
    if i < |s| && IsSpace(s[i]) then SkipSpace(s, i + 1) else i
  }

  lemma {:induction false} SkipSpaceStops(s: string, i: nat)
    requires i <= |s|
    ensures forall k :: i <= k < SkipSpace(s, i) ==> IsSpace(s[k])
    ensures SkipSpace(s, i) < |s| ==> !IsSpace(s[SkipSpace(s, i)])
    decreases |s| - i
  {
    if i < |s| && IsSpace(s[i]) {
      SkipSpaceStops(s, i + 1);
    }
  }

  /** End of `s[lo..j]` once its trailing whitespace is dropped. */
  function TrimEnd(s: string, lo: nat, j: nat): (r: nat)
    requires lo <= j <= |s|
    ensures lo <= r <= j
    decreases j
  {
    if j > lo && IsSpace(s[j - 1]) then TrimEnd(s, lo, j - 1) else j
  }

  lemma {:induction false} TrimEndStops(s: string, lo: nat, j: nat)
    requires lo <= j <= |s|
    ensures forall k :: TrimEnd(s, lo, j) <= k < j ==> IsSpace(s[k])
    ensures TrimEnd(s, lo, j) > lo ==> !IsSpace(s[TrimEnd(s, lo, j) - 1])
    decreases j
  {
    if j > lo && IsSpace(s[j - 1]) {
      TrimEndStops(s, lo, j - 1);
    }
  }

  /** Python's `s.find(c, from)`: the first index at or after `from` that
      holds `c`, here None where Python answers -1. */
  function Find(s: string, from: nat, c: char): (r: Option<nat>)
    requires from <= |s|
    ensures r.Some? ==> from <= r.value < |s|
    decreases |s| - from
  {
    if from == |s| then None
    else if s[from] == c then Some(from)
    else Find(s, from + 1, c)
  }

  /** `Find` reports the first `c` at or after `from`, and None exactly when
      there is none. */
  lemma {:induction false} FindFirst(s: string, from: nat, c: char)
    requires from <= |s|
    ensures Find(s, from, c).Some? ==>
      s[Find(s, from, c).value] == c
      && forall q :: from <= q < Find(s, from, c).value ==> s[q] != c
    ensures Find(s, from, c).None? <==> forall q :: from <= q < |s| ==> s[q] != c
    decreases |s| - from
  {
    if from < |s| && s[from] != c {
      FindFirst(s, from + 1, c);
    }
  }

  /** The converse: a `c` at `v` with none before it is what `Find` finds. */
  lemma FindAt(s: string, from: nat, c: char, v: nat)
    requires from <= v < |s| && s[v] == c
    requires forall q :: from <= q < v ==> s[q] != c
    ensures Find(s, from, c) == Some(v)
  {
    FindFirst(s, from, c);
  }

  /** `r` sits in `s` at offset `i` with nothing but whitespace around it. */
  predicate Flanked(s: string, i: int, r: string)
  {
    0 <= i && i + |r| <= |s| && s[i..i + |r|] == r
    && (forall k :: 0 <= k < i ==> IsSpace(s[k]))
    && (forall k :: i + |r| <= k < |s| ==> IsSpace(s[k]))
  }

  /** Python's `s.strip()`: the piece of `s` left once leading and trailing
      whitespace are removed. */
  function Strip(s: string): (r: string)
    ensures |r| <= |s|
  {
    var i := SkipSpace(s, 0);
    s[i..TrimEnd(s, i, |s|)]
  }

  /** The stripped string is flanked by whitespace only and neither starts
      nor ends with whitespace; these two facts determine it. */
  lemma StripSpec(s: string)
    ensures exists i :: Flanked(s, i, Strip(s))
    ensures Strip(s) == [] || (!IsSpace(Strip(s)[0]) && !IsSpace(Strip(s)[|Strip(s)| - 1]))
  {
    var i := SkipSpace(s, 0);
    var j := TrimEnd(s, i, |s|);
    SkipSpaceStops(s, 0);
    TrimEndStops(s, i, |s|);
    assert Strip(s) == s[i..j];
    assert Flanked(s, i, s[i..j]);
    if i < j {
      assert Strip(s)[0] == s[i] && Strip(s)[|Strip(s)| - 1] == s[j - 1];
    }
  }

  lemma StripNoSpace(s: string)
    requires NoSpace(s)
    ensures Strip(s) == s
  {
    assert SkipSpace(s, 0) == 0;
    assert TrimEnd(s, 0, |s|) == |s|;
  }

  function LowerChar(c: char): (r: char)
  {
    if 'A' <= c <= 'Z' then (c as int + 32) as char else c
  }

  /** `s.lower()` on ASCII text. It is only ever applied to normalised names
      and to roster names, which are ASCII, where it agrees with Python. */
  function Lower(s: string): (r: string)
    ensures |r| == |s|
  {
    seq(|s|, k requires 0 <= k < |s| => LowerChar(s[k]))
  }

  /** Lowering turns each upper-case ASCII letter into the lower-case
      letter at the same place in the alphabet, keeps every other character
      and is idempotent. */
  lemma LowerSpec(s: string)
    ensures forall k :: 0 <= k < |s| && 'A' <= s[k] <= 'Z' ==>
      'a' <= Lower(s)[k] <= 'z' && Lower(s)[k] as int - 'a' as int == s[k] as int - 'A' as int
    ensures forall k :: 0 <= k < |s| ==> !('A' <= Lower(s)[k] <= 'Z')
    ensures forall k :: 0 <= k < |s| && !('A' <= s[k] <= 'Z') ==> Lower(s)[k] == s[k]
    ensures Lower(Lower(s)) == Lower(s)
  {
  }

  predicate OccursAt(a: string, b: string, i: int)
  {
    0 <= i && i + |a| <= |b| && b[i..i + |a|] == a
  }

  /** Python's `a in b` on strings. */
  function Contains(b: string, a: string): (r: bool)
  {
    ContainsFrom(b, a, 0)
  }

  /** Whether `a` occurs in `b` at offset `i` or later. */
  function ContainsFrom(b: string, a: string, i: nat): (r: bool)
    decreases |b| - i
  {
    if i + |a| > |b| then false
    else if b[i..i + |a|] == a then true
    else ContainsFrom(b, a, i + 1)
  }

  /** `a in b` holds exactly when `a` is a contiguous piece of `b`; the
      empty string is a piece of every string. */
  lemma ContainsSpec(b: string, a: string)
    ensures Contains(b, a) <==> exists i :: OccursAt(a, b, i)
  {
    ContainsFromSpec(b, a, 0);
  }

  lemma {:induction false} ContainsFromSpec(b: string, a: string, i: nat)
    ensures ContainsFrom(b, a, i) <==> exists j :: i <= j && OccursAt(a, b, j)
    decreases |b| - i
  {
    if i + |a| <= |b| && b[i..i + |a|] != a {
      ContainsFromSpec(b, a, i + 1);
      if exists j :: i <= j && OccursAt(a, b, j) {
        var j :| i <= j && OccursAt(a, b, j);
        assert j != i;
      }
    } else if i + |a| <= |b| {
      assert OccursAt(a, b, i);
    }
  }

  /** Python's `s.split(sep)` for a one-character separator: the pieces
      between separators, always at least one. */
  function Split(s: string, sep: char): (r: seq<string>)
    ensures |r| >= 1
    ensures forall k :: 0 <= k < |r| ==> sep !in r[k]
  {
    if |s| == 0 then [""]
    else
      var rest := Split(s[1..], sep);
      if s[0] == sep then [""] + rest
      else [[s[0]] + rest[0]] + rest[1..]
  }

  /** Python's `sep.join(parts)`. */
  function Join(parts: seq<string>, sep: char): (r: string)
  {
    if |parts| == 0 then ""
    else if |parts| == 1 then parts[0]
    else parts[0] + [sep] + Join(parts[1..], sep)
  }

  lemma {:induction false} JoinCons(x: string, y: string, ys: seq<string>, sep: char)
    ensures Join([x + y] + ys, sep) == x + Join([y] + ys, sep)
  {
    if |ys| > 0 {
      assert ([x + y] + ys)[1..] == ys;
      assert ([y] + ys)[1..] == ys;
    }
  }

  /** Joining the pieces of a split gives back the string. */
  lemma {:induction false} JoinSplit(s: string, sep: char)
    ensures Join(Split(s, sep), sep) == s
  {
    if |s| > 0 {
      var rest := Split(s[1..], sep);
      JoinSplit(s[1..], sep);
      if s[0] == sep {
        assert ([""] + rest)[1..] == rest;
      } else {
        JoinCons([s[0]], rest[0], rest[1..], sep);
        assert [rest[0]] + rest[1..] == rest;
      }
    }
  }

  /** Splitting a string whose first separator comes after `p`. */
  lemma {:induction false} SplitAfterPiece(p: string, t: string, sep: char)
    requires sep !in p
    ensures Split(p + t, sep) == [p + Split(t, sep)[0]] + Split(t, sep)[1..]
    decreases |p|
  {
    if |p| > 0 {
      assert (p + t)[0] == p[0];
      assert (p + t)[1..] == p[1..] + t;
      SplitAfterPiece(p[1..], t, sep);
      assert [p[0]] + (p[1..] + Split(t, sep)[0]) == p + Split(t, sep)[0];
    } else {
      assert p + t == t;
      assert p + Split(t, sep)[0] == Split(t, sep)[0];
      assert [Split(t, sep)[0]] + Split(t, sep)[1..] == Split(t, sep);
    }
  }

  /** Splitting a join gives back the pieces, provided there is at least one
      piece and no piece holds the separator. */
  lemma {:induction false} SplitJoin(parts: seq<string>, sep: char)
    requires |parts| >= 1
    requires forall k :: 0 <= k < |parts| ==> sep !in parts[k]
    ensures Split(Join(parts, sep), sep) == parts
  {
    if |parts| == 1 {
      SplitAfterPiece(parts[0], "", sep);
      assert parts[0] + "" == parts[0];
    } else {
      var tail := Join(parts[1..], sep);
      SplitJoin(parts[1..], sep);
      assert parts[0] + [sep] + tail == parts[0] + ([sep] + tail);
      SplitAfterPiece(parts[0], [sep] + tail, sep);
      assert ([sep] + tail)[1..] == tail;
      assert Split([sep] + tail, sep) == [""] + parts[1..];
      assert parts[0] + "" == parts[0];
      assert [parts[0]] + parts[1..] == parts;
    }
  }

  /** A join contains only characters of the pieces and the separator. */
  lemma {:induction false} JoinNoSpace(parts: seq<string>, sep: char)
    requires !IsSpace(sep)
    requires forall k :: 0 <= k < |parts| ==> NoSpace(parts[k])
    ensures NoSpace(Join(parts, sep))
  {
    if |parts| > 1 {
      JoinNoSpace(parts[1..], sep);
      var tail := Join(parts[1..], sep);
      var whole := parts[0] + [sep] + tail;
      forall k | 0 <= k < |whole| ensures !IsSpace(whole[k]) {
        if k < |parts[0]| {
          assert whole[k] == parts[0][k];
        } else if k > |parts[0]| {
          assert whole[k] == tail[k - |parts[0]| - 1];
        }
      }
    }
  }
}
