/** Reconciling the stripped senders of the transcript with the roster of
    the dashboard (heatmapv2.py:15-36, 119-136): `normalize_name`, the
    fuzzy comparison with a roster name, and the priority chain that gives
    each sender one target. */
module Names {
  import opened Wrappers
  import opened Text

  /** The two constants the reconciliation reads: the hand-written aliases
      and the roster, in the order the dashboard lists it. */
  datatype Config = Config(aliases: map<string, string>, roster: seq<string>)

  /** `manual_name_map` of heatmapv2.py:15-29. Three keys are text that went
      through a wrong decoding; they are written out character by
      character. */
  const ManualNameMap: map<string, string> := map[
    "Funmi" := "Gloria",
    "Anu" := "Moyin",
    "Faithy" := "Faith",
    "Oyinade Priscilla" := "Oyinade",
    "Dora" := "Dorathy",
    "Barisuka Goodluck" := "Barisuka",
    "Bee\U{201A}\U{F9}\U{A7}\U{D4}\U{220F}\U{E8}" := "Bisoye",
    "joy387115" := "Joy",
    "Princess Esther Etang" := "Esther Etang",
    "~MJ" := "Reme",
    "El\U{F8FF}\U{FC}\U{EB}\U{EB}" := "El",
    "~\U{201A}\U{C4}\U{D8}M&J Wears" := "Baridule"
  ]

  /** `dashboard_names` of heatmapv2.py:31-36. */
  const DashboardNames: seq<string> := [
    "Adeola", "Baridule", "Barisuka", "Bisoye", "Christabel", "Dorathy",
    "Esther Chioma", "Esther Etang", "El", "Faith", "Gloria", "Joy",
    "Moyin", "Oyinkan", "Peace", "Reme", "Shirley", "Tiaraoluwa",
    "Tolani", "Oyinade"
  ]

  const DashboardConfig: Config := Config(ManualNameMap, DashboardNames)

  /** Every alias points at a roster name. */
  predicate AliasesInRoster(cfg: Config)
  {
    forall k :: k in cfg.aliases ==> cfg.aliases[k] in cfg.roster
  }

  /** The characters `[A-Za-z ]`, the ones `re.sub(r'[^A-Za-z ]', '', name)`
      leaves in place. */
  predicate Kept(c: char)
  {
    'A' <= c <= 'Z' || 'a' <= c <= 'z' || c == ' '
  }

  /** `re.sub(r'[^A-Za-z ]', '', s)`: drops every other character. */
  function KeepLetters(s: string): (r: string)
    ensures |r| <= |s|
  {
    if |s| == 0 then ""
    else (if Kept(s[0]) then [s[0]] else []) + KeepLetters(s[1..])
  }

  /** `a` is `b` with some characters left out. */
  predicate IsSubsequence(a: string, b: string)
  {
    |a| == 0 || (|b| > 0 && ((a[0] == b[0] && IsSubsequence(a[1..], b[1..])) || IsSubsequence(a, b[1..])))
  }

  /** One step of the filter. */
  lemma KeepLettersCons(s: string)
    requires |s| > 0
    ensures Kept(s[0]) ==> KeepLetters(s) == [s[0]] + KeepLetters(s[1..])
    ensures !Kept(s[0]) ==> KeepLetters(s) == KeepLetters(s[1..])
  {
  }

  /** The filter keeps characters in their order: a subsequence. */
  lemma {:induction false} KeepLettersSubsequence(s: string)
    ensures IsSubsequence(KeepLetters(s), s)
  {
    if |s| > 0 {
      KeepLettersSubsequence(s[1..]);
      KeepLettersCons(s);
      var r := KeepLetters(s[1..]);
      if Kept(s[0]) {
        assert ([s[0]] + r)[0] == s[0] && ([s[0]] + r)[1..] == r;
      }
    }
  }

  /** Only kept characters survive the filter. */
  lemma {:induction false} KeepLettersOnlyKept(s: string)
    ensures forall k :: 0 <= k < |KeepLetters(s)| ==> Kept(KeepLetters(s)[k])
  {
    if |s| > 0 {
      KeepLettersOnlyKept(s[1..]);
      KeepLettersCons(s);
      var r := KeepLetters(s[1..]);
      if Kept(s[0]) {
        forall k | 0 < k < |r| + 1 ensures ([s[0]] + r)[k] == r[k - 1] {
        }
      }
    }
  }

  /** Every kept character survives, as often as it occurs; no other
      character does. */
  lemma {:induction false} KeepLettersCounts(s: string)
    ensures forall c :: Kept(c) ==> multiset(KeepLetters(s))[c] == multiset(s)[c]
    ensures forall c :: !Kept(c) ==> multiset(KeepLetters(s))[c] == 0
  {
    if |s| > 0 {
      KeepLettersCounts(s[1..]);
      KeepLettersCons(s);
      assert s == [s[0]] + s[1..];
    }
  }

  /** A string of kept characters passes the filter unchanged. */
  lemma {:induction false} KeepLettersOfKept(s: string)
    requires forall k :: 0 <= k < |s| ==> Kept(s[k])
    ensures KeepLetters(s) == s
  {
    if |s| > 0 {
      KeepLettersOfKept(s[1..]);
      assert s == [s[0]] + s[1..];
    }
  }

  /** `normalize_name` of heatmapv2.py:119-122: strip, then drop every
      character outside `[A-Za-z ]`. */
  function NormalizeName(name: string): (r: string)
    ensures |r| <= |name|
  {
    KeepLetters(Strip(name))
  }

  /** The normalised name is a subsequence of the stripped name made of
      ASCII letters and spaces only, and it holds all of them. */
  lemma NormalizeNameSpec(name: string)
    ensures IsSubsequence(NormalizeName(name), Strip(name))
    ensures forall k :: 0 <= k < |NormalizeName(name)| ==> Kept(NormalizeName(name)[k])
    ensures forall c :: Kept(c) ==> multiset(NormalizeName(name))[c] == multiset(Strip(name))[c]
  {
    KeepLettersSubsequence(Strip(name));
    KeepLettersOnlyKept(Strip(name));
    KeepLettersCounts(Strip(name));
  }

  /** Normalising is not idempotent: the filter can uncover whitespace that
      the strip before it did not see. */
  lemma NormalizeNameNotIdempotent()
    ensures NormalizeName("~ MJ") == " MJ"
    ensures NormalizeName(" MJ") == "MJ"
    ensures NormalizeName(NormalizeName("~ MJ")) != NormalizeName("~ MJ")
  {
    NormalizeTildeMJ();
    NormalizeSpaceMJ();
  }

  lemma NormalizeTildeMJ()
    ensures NormalizeName("~ MJ") == " MJ"
  {
    assert Strip("~ MJ") == "~ MJ" by {
      assert SkipSpace("~ MJ", 0) == 0;
      assert TrimEnd("~ MJ", 0, 4) == 4;
    }
    assert KeepLetters("~ MJ") == KeepLetters(" MJ");
    KeepLettersOfKept(" MJ");
  }

  lemma NormalizeSpaceMJ()
    ensures NormalizeName(" MJ") == "MJ"
  {
    assert Strip(" MJ") == "MJ" by {
      assert SkipSpace(" MJ", 0) == 1;
      assert TrimEnd(" MJ", 1, 3) == 3;
    }
    KeepLettersOfKept("MJ");
  }

  /** The test of heatmapv2.py:132: either lowercased string contains the
      other. `norm` is already lowercased. */
  predicate FuzzyMatch(norm: string, dashName: string)
  {
    Contains(Lower(dashName), norm) || Contains(norm, Lower(dashName))
  }

  /** The first roster position whose name passes the fuzzy test. */
  function FirstFuzzy(norm: string, roster: seq<string>): (r: Option<nat>)
    ensures r.Some? ==> r.value < |roster|
  {
    if |roster| == 0 then None
    else if FuzzyMatch(norm, roster[0]) then Some(0)
    else match FirstFuzzy(norm, roster[1..])
      case Some(k) => Some(k + 1)
      case None => None
  }

  /** `FirstFuzzy` is the first passing position, and None exactly when no
      roster name passes. */
  lemma {:induction false} FirstFuzzySpec(norm: string, roster: seq<string>)
    ensures FirstFuzzy(norm, roster).Some? ==>
      var k := FirstFuzzy(norm, roster).value;
      FuzzyMatch(norm, roster[k]) && forall q :: 0 <= q < k ==> !FuzzyMatch(norm, roster[q])
    ensures FirstFuzzy(norm, roster).None? <==> forall q :: 0 <= q < |roster| ==> !FuzzyMatch(norm, roster[q])
  {
    if |roster| > 0 && !FuzzyMatch(norm, roster[0]) {
      FirstFuzzySpec(norm, roster[1..]);
      assert forall q :: 1 <= q < |roster| ==> roster[q] == roster[1..][q - 1];
    }
  }

  /** `manual_name_map.get(raw)` taken as true: present and nonempty. */
  predicate AliasHit(cfg: Config, raw: string)
  {
    raw in cfg.aliases && cfg.aliases[raw] != ""
  }

  /** The target heatmapv2.py:126-136 gives the stripped sender `raw`. */
  function Resolve(cfg: Config, raw: string): (r: string)
    ensures r in cfg.roster || r == raw || (raw in cfg.aliases && r == cfg.aliases[raw])
  {
    if AliasHit(cfg, raw) then cfg.aliases[raw]
    else match FirstFuzzy(Lower(NormalizeName(raw)), cfg.roster)
      case Some(k) => cfg.roster[k]
      case None => raw
  }

  /** An alias always wins, whatever the fuzzy test would say. */
  lemma ResolveAlias(cfg: Config, raw: string)
    requires AliasHit(cfg, raw)
    ensures Resolve(cfg, raw) == cfg.aliases[raw]
  {
  }

  /** Without an alias, the first roster name in roster order that passes
      the fuzzy test is the target. */
  lemma ResolveFuzzy(cfg: Config, raw: string, k: nat)
    requires !AliasHit(cfg, raw) && k < |cfg.roster|
    requires FuzzyMatch(Lower(NormalizeName(raw)), cfg.roster[k])
    requires forall q :: 0 <= q < k ==> !FuzzyMatch(Lower(NormalizeName(raw)), cfg.roster[q])
    ensures Resolve(cfg, raw) == cfg.roster[k]
  {
    var norm := Lower(NormalizeName(raw));
    FirstFuzzySpec(norm, cfg.roster);
    var j := FirstFuzzy(norm, cfg.roster).value;
    assert !(j < k) && !(k < j);
  }

  /** Without an alias and without a passing roster name, the sender is
      its own target. */
  lemma ResolveRaw(cfg: Config, raw: string)
    requires !AliasHit(cfg, raw)
    requires forall q :: 0 <= q < |cfg.roster| ==> !FuzzyMatch(Lower(NormalizeName(raw)), cfg.roster[q])
    ensures Resolve(cfg, raw) == raw
  {
    FirstFuzzySpec(Lower(NormalizeName(raw)), cfg.roster);
  }

  /** When every alias points into the roster, every target is a roster
      name or the sender itself. */
  lemma ResolveTargets(cfg: Config, raw: string)
    requires AliasesInRoster(cfg)
    ensures Resolve(cfg, raw) in cfg.roster || Resolve(cfg, raw) == raw
  {
  }

  /** The configuration of the dashboard meets that condition. */
  lemma DashboardAliasesInRoster()
    ensures AliasesInRoster(DashboardConfig)
  {
    assert ManualNameMap.Values <= set n | n in DashboardNames;
  }

  /** A sender that normalises to the empty string and has no alias goes to
      the first roster name: the empty string is in every string. */
  lemma EmptyNormalResolvesFirst(cfg: Config, raw: string)
    requires !AliasHit(cfg, raw) && NormalizeName(raw) == "" && |cfg.roster| > 0
    ensures Resolve(cfg, raw) == cfg.roster[0]
  {
    assert Lower("") == "";
    assert OccursAt("", Lower(cfg.roster[0]), 0);
    ContainsSpec(Lower(cfg.roster[0]), "");
  }

  /** For the dashboard's roster that is `"Adeola"`. */
  lemma EmptyNormalIsAdeola(raw: string)
    requires !AliasHit(DashboardConfig, raw) && NormalizeName(raw) == ""
    ensures Resolve(DashboardConfig, raw) == "Adeola"
  {
    EmptyNormalResolvesFirst(DashboardConfig, raw);
  }

  /** `o` moved `n` positions on. */
  function Offset(o: Option<nat>, n: nat): (r: Option<nat>)
  {
    match o
    case Some(k) => Some(k + n)
    case None => None
  }

  /** The search from position `j` looks at `j` and then moves on. */
  lemma FirstFuzzyFrom(norm: string, roster: seq<string>, j: nat)
    requires j < |roster|
    ensures FirstFuzzy(norm, roster[j..]) ==
      if FuzzyMatch(norm, roster[j]) then Some(0) else Offset(FirstFuzzy(norm, roster[j + 1..]), 1)
  {
    assert roster[j..][0] == roster[j];
    assert roster[j..][1..] == roster[j + 1..];
  }

  /** heatmapv2.py:131-136: the roster scan with `break`; `for`/`else`
      answers None when the scan runs off the end. */
  method ScanRoster(norm: string, roster: seq<string>) returns (r: Option<nat>)
    ensures r == FirstFuzzy(norm, roster)
  {
    r := None;
    var j := 0;
    assert roster[0..] == roster;
    while j < |roster|
      invariant 0 <= j <= |roster|
      invariant FirstFuzzy(norm, roster) == Offset(FirstFuzzy(norm, roster[j..]), j)
    {
      FirstFuzzyFrom(norm, roster, j);
      if FuzzyMatch(norm, roster[j]) {
        r := Some(j);
        break;
      }
      j := j + 1;
    }
  }

  /** heatmapv2.py:124-136: `name_mapping`, one target for every key of the
      counts dictionary, in the dictionary's order. */
  method BuildNameMapping(cfg: Config, keys: seq<string>) returns (mapping: map<string, string>)
    ensures forall k :: k in mapping <==> k in keys
    ensures forall k :: k in mapping ==> mapping[k] == Resolve(cfg, k)
  {
    mapping := map[];
    var i := 0;
    while i < |keys|
      invariant 0 <= i <= |keys|
      invariant forall k :: k in mapping <==> k in keys[..i]
      invariant forall k :: k in mapping ==> mapping[k] == Resolve(cfg, k)
    {
      var raw := keys[i];
      if AliasHit(cfg, raw) {
        mapping := mapping[raw := cfg.aliases[raw]];
      } else {
        var rawNorm := Lower(NormalizeName(raw));
        var hit := ScanRoster(rawNorm, cfg.roster);
        if hit.Some? {
          mapping := mapping[raw := cfg.roster[hit.value]];
        } else {
          mapping := mapping[raw := raw];
        }
      }
      assert keys[..i + 1] == keys[..i] + [raw];
      i := i + 1;
    }
    assert keys[..|keys|] == keys;
  }
}
