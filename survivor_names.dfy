// Survivor asset names, e.g. ".../Workers/Worker_Leprechaun_VR_T01.uasset" or
// ".../Managers/ManagerMartialArtist_SR_samurai_T03".
//
// The exporter matches them against the regular expression
//   .*/([^/]+)_(C|UC|R|VR|SR|UR)_([a-z]+_)?T(\d+)(?:\..*)?$
// This module is a hand-written matcher for that expression that makes the
// same choices the regex engine does:
//  - the leading `.*` is greedy, so the slash tried first is the last one;
//  - `([^/]+)` is greedy, so for that slash the longest base is tried first;
//  - the tail `_(C|UC|R|VR|SR|UR)_([a-z]+_)?T(\d+)(?:\..*)?$` after the base
//    has at most one way to match (MatchTailComplete), so it needs no search.
// The first slash/base split, in that order, whose tail matches wins.
module SurvivorNames {
  import opened Wrappers
  import opened Text
  import opened Rarities

  /** The parsed name: the base (with the lower-case qualifier appended), the rarity and the tier. */
  datatype ParsedItemName = ParsedItemName(baseName: string, rarity: Rarity, tier: nat)

  /** What the tail captures: the rarity, the qualifier with its underscore (or ""), and the tier digits. */
  datatype Tail = Tail(rarity: Rarity, qualifier: string, digits: string)

  predicate StartsWith(w: string, p: string) { |p| <= |w| && w[..|p|] == p }

  /** The first alternative of (C|UC|R|VR|SR|UR), from the k-th on, that is followed by '_'. */
  function MatchRarity(w: string, k: nat): (r: Option<Rarity>)
    requires k <= |AllRarities|
    ensures r.Some? ==> StartsWith(w, Code(r.value) + "_")
    ensures r.None? ==> forall j :: k <= j < |AllRarities| ==> !StartsWith(w, Code(AllRarities[j]) + "_")
    decreases |AllRarities| - k
  {
    if k == |AllRarities| then None
    else if StartsWith(w, Code(AllRarities[k]) + "_") then Some(AllRarities[k])
    else MatchRarity(w, k + 1)
  }

  /** At most one alternative fits, so the order of the alternation does not matter. */
  lemma RarityTokenUnique(w: string, a: Rarity, b: Rarity)
    requires StartsWith(w, Code(a) + "_") && StartsWith(w, Code(b) + "_")
    ensures a == b
  {
    var ca, cb := Code(a) + "_", Code(b) + "_";
    assert ca[1] == w[..|ca|][1] == w[1] == w[..|cb|][1] == cb[1];
    assert (ca[1] == '_') == (|ca| == 2) && (cb[1] == '_') == (|cb| == 2);
    assert Code(a) == w[..|ca| - 1] == Code(b);
    CodeInjective(a, b);
  }

  lemma MatchRarityFinds(w: string, r: Rarity)
    requires StartsWith(w, Code(r) + "_")
    ensures MatchRarity(w, 0) == Some(r)
  {
    assert AllRarities[Ordinal(r)] == r;
    var m := MatchRarity(w, 0);
    if m.Some? { RarityTokenUnique(w, m.value, r); }
  }

  /** The length of the longest prefix of `w` made of lower-case ASCII letters. */
  function LowerRun(w: string): (n: nat)
    ensures n <= |w| && (forall i :: 0 <= i < n ==> IsLowerAscii(w[i])) && (n == |w| || !IsLowerAscii(w[n]))
  {
    if |w| == 0 || !IsLowerAscii(w[0]) then 0 else 1 + LowerRun(w[1..])
  }

  /** The length of the longest prefix of `w` made of decimal digits. */
  function DigitRun(w: string): (n: nat)
    ensures n <= |w| && (forall i :: 0 <= i < n ==> IsDigit(w[i])) && (n == |w| || !IsDigit(w[n]))
  {
    if |w| == 0 || !IsDigit(w[0]) then 0 else 1 + DigitRun(w[1..])
  }

  /** `([a-z]+_)?`: empty, or lower-case letters followed by one underscore. */
  predicate IsQualifier(q: string)
  {
    q == [] || (|q| >= 2 && q[|q| - 1] == '_' && forall i :: 0 <= i < |q| - 1 ==> IsLowerAscii(q[i]))
  }

  /** `(?:\..*)?$`: nothing, or a '.' and anything after it. */
  predicate IsSuffix(rest: string) { rest == [] || rest[0] == '.' }

  lemma StartsWithConcat(w: string, a: string, b: string)
    requires StartsWith(w, a) && StartsWith(w[|a|..], b)
    ensures StartsWith(w, a + b) && w[|a + b|..] == w[|a|..][|b|..]
  {
    assert w[..|a + b|] == w[..|a|] + w[|a|..][..|b|];
  }

  /**
   * The length of the `([a-z]+_)?` group at the start of `b`, 0 when it is
   * absent. `[a-z]+` takes the whole lower-case run; a shorter run would be
   * followed by a letter, not by '_', so no other length can succeed.
   */
  function QualifierLength(b: string): (n: nat)
    ensures n <= |b| && IsQualifier(b[..n])
  {
    var k := LowerRun(b);
    if 0 < k < |b| && b[k] == '_' then k + 1 else 0
  }

  /** `T(\d+)(?:\..*)?$` against the whole of `c`: the tier digits. */
  function MatchTier(c: string): (r: Option<string>)
    ensures r.Some? ==>
      && |r.value| > 0 && AllDigits(r.value)
      && StartsWith(c, "T" + r.value) && IsSuffix(c[1 + |r.value|..])
  {
    if |c| == 0 || c[0] != 'T' then None
    else
      var d := DigitRun(c[1..]);
      if d == 0 || !IsSuffix(c[1 + d..]) then None
      else
        var digits := c[1..1 + d];
        assert forall i :: 0 <= i < d ==> digits[i] == c[1..][i];
        assert c[..1 + d] == "T" + digits;
        Some(digits)
  }

  /** `([a-z]+_)?T(\d+)(?:\..*)?$` against the whole of `b`: the qualifier and the tier digits. */
  function MatchQualified(b: string): (r: Option<(string, string)>)
    ensures r.Some? ==>
      && IsQualifier(r.value.0) && |r.value.1| > 0 && AllDigits(r.value.1)
      && StartsWith(b, r.value.0 + "T" + r.value.1) && IsSuffix(b[|r.value.0| + 1 + |r.value.1|..])
  {
    var n := QualifierLength(b);
    match MatchTier(b[n..])
    case None => None
    case Some(digits) =>
      StartsWithConcat(b, b[..n], "T" + digits);
      assert b[..n] + ("T" + digits) == b[..n] + "T" + digits;
      Some((b[..n], digits))
  }

  /** The text `_(C|UC|R|VR|SR|UR)_` spells for one rarity. */
  function Head(r: Rarity): string
  {
    "_" + (Code(r) + "_")
  }

  /** `_(C|UC|R|VR|SR|UR)_` at the start of `w`: the rarity it names. */
  function MatchHead(w: string): (r: Option<Rarity>)
    ensures r.Some? ==> StartsWith(w, Head(r.value))
  {
    if |w| == 0 || w[0] != '_' then None
    else
      var m := MatchRarity(w[1..], 0);
      if m.Some? then StartsWithConcat(w, "_", Code(m.value) + "_"); m
      else m
  }

  /** The text the tail consumes before its optional `.` suffix. */
  function TailText(t: Tail): string
  {
    Head(t.rarity) + (t.qualifier + "T" + t.digits)
  }

  /** Matches `_(C|UC|R|VR|SR|UR)_([a-z]+_)?T(\d+)(?:\..*)?$` against the whole of `w`. */
  function MatchTail(w: string): (r: Option<Tail>)
    ensures r.Some? ==>
      && IsQualifier(r.value.qualifier) && |r.value.digits| > 0 && AllDigits(r.value.digits)
      && StartsWith(w, TailText(r.value)) && IsSuffix(w[|TailText(r.value)|..])
  {
    match MatchHead(w)
    case None => None
    case Some(rarity) =>
      var m := MatchQualified(w[|Head(rarity)|..]);
      if m.None? then None
      else
        StartsWithConcat(w, Head(rarity), m.value.0 + "T" + m.value.1);
        Some(Tail(rarity, m.value.0, m.value.1))
  }

  lemma LowerRunOf(q: string, rest: string)
    requires IsQualifier(q) && q != []
    ensures LowerRun(q + rest) == |q| - 1
  {
    var b := q + rest;
    assert forall i :: 0 <= i < |q| - 1 ==> IsLowerAscii(b[i]);
    assert !IsLowerAscii(b[|q| - 1]);
  }

  lemma DigitRunOf(digits: string, rest: string)
    requires AllDigits(digits) && IsSuffix(rest)
    ensures DigitRun(digits + rest) == |digits|
  {
    var b := digits + rest;
    assert forall i :: 0 <= i < |digits| ==> IsDigit(b[i]);
    assert |b| == |digits| || !IsDigit(b[|digits|]);
  }

  lemma QualifierLengthOf(q: string, c: string)
    requires IsQualifier(q) && |c| > 0 && c[0] == 'T'
    ensures QualifierLength(q + c) == |q|
  {
    if q == [] {
      assert (q + c)[0] == 'T';
    } else {
      LowerRunOf(q, c);
      assert (q + c)[|q| - 1] == '_';
    }
  }

  lemma MatchTierComplete(digits: string, rest: string)
    requires |digits| > 0 && AllDigits(digits) && IsSuffix(rest)
    ensures MatchTier("T" + digits + rest) == Some(digits)
  {
    var c := "T" + digits + rest;
    assert c[1..] == digits + rest;
    DigitRunOf(digits, rest);
    assert c[1..1 + |digits|] == digits;
    assert c[1 + |digits|..] == rest;
  }

  lemma MatchQualifiedComplete(q: string, digits: string, rest: string)
    requires IsQualifier(q) && |digits| > 0 && AllDigits(digits) && IsSuffix(rest)
    ensures MatchQualified(q + "T" + digits + rest) == Some((q, digits))
  {
    var c := "T" + digits + rest;
    var b := q + "T" + digits + rest;
    assert b == q + c;
    QualifierLengthOf(q, c);
    assert b[..|q|] == q && b[|q|..] == c;
    MatchTierComplete(digits, rest);
  }

  /** The tail has one way to match: spelled out in full, MatchTail reads back exactly its parts. */
  lemma MatchHeadComplete(r: Rarity, rest: string)
    ensures MatchHead(Head(r) + rest) == Some(r)
  {
    var w := Head(r) + rest;
    var code := Code(r) + "_";
    assert w == "_" + (code + rest);
    assert w[1..] == code + rest;
    assert w[1..][..|code|] == code;
    MatchRarityFinds(w[1..], r);
  }

  lemma MatchTailComplete(t: Tail, rest: string)
    requires IsQualifier(t.qualifier) && |t.digits| > 0 && AllDigits(t.digits) && IsSuffix(rest)
    ensures MatchTail(TailText(t) + rest) == Some(t)
  {
    var body := t.qualifier + "T" + t.digits;
    var w := TailText(t) + rest;
    assert w == Head(t.rarity) + (body + rest);
    MatchHeadComplete(t.rarity, body + rest);
    assert w[|Head(t.rarity)|..] == body + rest;
    MatchQualifiedComplete(t.qualifier, t.digits, rest);
  }

  // ---------------------------------------------------------------------------
  // The slash and the base
  // ---------------------------------------------------------------------------

  /**
   * The regex matches with its first '/' at `p` and group 1 ending at `e`:
   * group 1, s[p+1..e], is a non-empty run without '/', and the tail matches
   * the rest of the string.
   */
  ghost predicate MatchesAt(s: string, p: nat, e: nat)
  {
    p + 2 <= e <= |s| && s[p] == '/' && '/' !in s[p + 1..e] && MatchTail(s[e..]).Some?
  }

  /** Whether the tail matches from each position: tailAt[e] for s[e..]. */
  function TailTable(s: string): (tailAt: seq<bool>)
    ensures |tailAt| == |s| + 1
  {
    seq(|s| + 1, e requires 0 <= e <= |s| => MatchTail(s[e..]).Some?)
  }

  /** MatchesAt, with the tail looked up in a table of tail matches. */
  predicate SplitAt(s: string, tailAt: seq<bool>, p: nat, e: nat)
    requires |tailAt| == |s| + 1
  {
    p + 2 <= e <= |s| && s[p] == '/' && '/' !in s[p + 1..e] && tailAt[e]
  }

  /** `tailAt` records, for every position of `s`, whether the tail matches from there. */
  ghost predicate TableCorrect(s: string, tailAt: seq<bool>)
  {
    |tailAt| == |s| + 1 && forall e :: 0 <= e <= |s| ==> (tailAt[e] <==> MatchTail(s[e..]).Some?)
  }

  lemma TailTableCorrect(s: string)
    ensures TableCorrect(s, TailTable(s))
  {
  }

  lemma SplitAtMatches(s: string, tailAt: seq<bool>, p: nat, e: nat)
    requires TableCorrect(s, tailAt)
    ensures SplitAt(s, tailAt, p, e) <==> MatchesAt(s, p, e)
  {
  }

  /** The end of the run of non-'/' characters that starts at `i`. */
  function RunEnd(s: string, i: nat): (j: nat)
    requires i <= |s|
    ensures i <= j <= |s| && '/' !in s[i..j] && (j == |s| || s[j] == '/')
    decreases |s| - i
  {
    if i == |s| || s[i] == '/' then i
    else
      var j := RunEnd(s, i + 1);
      assert s[i..j] == [s[i]] + s[i + 1..j];
      j
  }

  /** No group-1 end in (lo, hi] gives a split for the slash at `p`. */
  ghost predicate NoEndIn(s: string, tailAt: seq<bool>, p: nat, lo: nat, hi: nat)
    requires |tailAt| == |s| + 1
    decreases hi
  {
    hi <= lo || (!SplitAt(s, tailAt, p, hi) && NoEndIn(s, tailAt, p, lo, hi - 1))
  }

  lemma {:induction false} NoEndInMeans(s: string, tailAt: seq<bool>, p: nat, lo: nat, hi: nat, e: nat)
    requires |tailAt| == |s| + 1 && NoEndIn(s, tailAt, p, lo, hi) && lo < e <= hi
    ensures !SplitAt(s, tailAt, p, e)
    decreases hi
  {
    if e < hi { NoEndInMeans(s, tailAt, p, lo, hi - 1, e); }
  }

  /** Greedy `([^/]+)` after the slash at `p`: tries group-1 ends e, e - 1, ..., p + 2. */
  function SearchEnd(s: string, tailAt: seq<bool>, p: nat, e: nat): (r: Option<nat>)
    requires |tailAt| == |s| + 1
    requires p < |s| && s[p] == '/' && p + 1 <= e <= |s| && '/' !in s[p + 1..e]
    ensures r.Some? ==> r.value <= e && SplitAt(s, tailAt, p, r.value) && NoEndIn(s, tailAt, p, r.value, e)
    ensures r.None? ==> NoEndIn(s, tailAt, p, p + 1, e)
    decreases e
  {
    if e < p + 2 then None
    else if tailAt[e] then Some(e)
    else
      assert s[p + 1..e - 1] == s[p + 1..e][..e - 1 - (p + 1)];
      SearchEnd(s, tailAt, p, e - 1)
  }

  /** Group 1 never reaches past the next '/'. */
  lemma NoSplitPastRun(s: string, tailAt: seq<bool>, p: nat, e: nat)
    requires |tailAt| == |s| + 1
    requires p < |s| && s[p] == '/' && RunEnd(s, p + 1) < e <= |s|
    ensures !SplitAt(s, tailAt, p, e)
  {
    var end := RunEnd(s, p + 1);
    assert s[p + 1..e][end - (p + 1)] == '/';
  }

  /** What SearchEnd rules out up to the end of the run holds up to the end of the string. */
  lemma {:induction false} NoEndPastRun(s: string, tailAt: seq<bool>, p: nat, lo: nat, hi: nat)
    requires |tailAt| == |s| + 1
    requires p < |s| && s[p] == '/' && RunEnd(s, p + 1) <= hi <= |s|
    requires NoEndIn(s, tailAt, p, lo, RunEnd(s, p + 1))
    ensures NoEndIn(s, tailAt, p, lo, hi)
    decreases hi
  {
    if hi > RunEnd(s, p + 1) {
      NoSplitPastRun(s, tailAt, p, hi);
      NoEndPastRun(s, tailAt, p, lo, hi - 1);
    }
  }

  /** No slash at an index in [lo, hi) starts a split. */
  ghost predicate NoSlashIn(s: string, tailAt: seq<bool>, lo: nat, hi: nat)
    requires |tailAt| == |s| + 1
    decreases hi
  {
    hi <= lo || (NoEndIn(s, tailAt, hi - 1, 0, |s|) && NoSlashIn(s, tailAt, lo, hi - 1))
  }

  lemma {:induction false} NoSlashInMeans(s: string, tailAt: seq<bool>, lo: nat, hi: nat, p: nat, e: nat)
    requires |tailAt| == |s| + 1 && NoSlashIn(s, tailAt, lo, hi) && lo <= p < hi
    ensures !SplitAt(s, tailAt, p, e)
    decreases hi
  {
    if p < hi - 1 {
      NoSlashInMeans(s, tailAt, lo, hi - 1, p, e);
    } else if 0 < e <= |s| {
      NoEndInMeans(s, tailAt, p, 0, |s|, e);
    }
  }

  /** The greedy leading `.*`: tries the slashes before index k, the last one first. */
  function SearchSlash(s: string, tailAt: seq<bool>, k: nat): (r: Option<(nat, nat)>)
    requires |tailAt| == |s| + 1 && k <= |s|
    ensures r.Some? ==> r.value.0 < k && SplitAt(s, tailAt, r.value.0, r.value.1)
    ensures r.Some? ==> NoEndIn(s, tailAt, r.value.0, r.value.1, |s|) && NoSlashIn(s, tailAt, r.value.0 + 1, k)
    ensures r.None? ==> NoSlashIn(s, tailAt, 0, k)
    decreases k
  {
    if k == 0 then None
    else
      var p := k - 1;
      if s[p] == '/' then
        var end := RunEnd(s, p + 1);
        match SearchEnd(s, tailAt, p, end)
        case Some(e) =>
          NoEndPastRun(s, tailAt, p, e, |s|);
          Some((p, e))
        case None =>
          NoEndPastRun(s, tailAt, p, p + 1, |s|);
          NoEndFromSlash(s, tailAt, p, p + 1, |s|);
          SearchSlash(s, tailAt, p)
      else
        NoEndWithoutSlash(s, tailAt, p, |s|);
        SearchSlash(s, tailAt, p)
  }

  /** Ends at or before p + 1 never split: group 1 is not empty. */
  lemma {:induction false} NoEndFromSlash(s: string, tailAt: seq<bool>, p: nat, lo: nat, hi: nat)
    requires |tailAt| == |s| + 1 && lo <= p + 1 && NoEndIn(s, tailAt, p, p + 1, hi)
    ensures NoEndIn(s, tailAt, p, 0, hi)
    decreases hi
  {
    if hi > p + 1 { NoEndFromSlash(s, tailAt, p, lo, hi - 1); }
    else if hi > 0 { NoEndWithoutSlash(s, tailAt, p, hi); }
  }

  lemma {:induction false} NoEndWithoutSlash(s: string, tailAt: seq<bool>, p: nat, hi: nat)
    requires |tailAt| == |s| + 1 && (p >= |s| || s[p] != '/' || hi <= p + 1)
    ensures NoEndIn(s, tailAt, p, 0, hi)
    decreases hi
  {
    if hi > 0 { NoEndWithoutSlash(s, tailAt, p, hi - 1); }
  }

  /** The groups the regex captures for the split (p, e), as `ParseAssetName` assembles them. */
  function Groups(s: string, p: nat, e: nat): (r: ParsedItemName)
    requires MatchesAt(s, p, e)
    ensures StartsWith(r.baseName, s[p + 1..e])
    ensures StartsWith(s[e..], Head(r.rarity))
  {
    var t := MatchTail(s[e..]).value;
    assert TailText(t)[..|Head(t.rarity)|] == Head(t.rarity);
    ParsedItemName(s[p + 1..e] + t.qualifier, t.rarity, DecimalValue(t.digits))
  }

  /** No slash after `p` starts a match. */
  ghost predicate NoLaterSlash(s: string, p: nat)
  {
    forall p': nat, e': nat :: p < p' ==> !MatchesAt(s, p', e')
  }

  /** No group 1 longer than s[p+1..e] matches after the slash at `p`. */
  ghost predicate NoLongerBase(s: string, p: nat, e: nat)
  {
    forall e': nat :: e < e' ==> !MatchesAt(s, p, e')
  }

  /** The split the regex engine settles on: it matches, no later slash matches, and no longer base does. */
  ghost predicate Preferred(s: string, p: nat, e: nat)
  {
    MatchesAt(s, p, e) && NoLaterSlash(s, p) && NoLongerBase(s, p, e)
  }

  /** Slashes the search has ruled out start no match. */
  lemma RuledOutSlashes(s: string, tailAt: seq<bool>, lo: nat, p: nat, e: nat)
    requires TableCorrect(s, tailAt) && NoSlashIn(s, tailAt, lo, |s|) && lo <= p
    ensures !MatchesAt(s, p, e)
  {
    if p < |s| { NoSlashInMeans(s, tailAt, lo, |s|, p, e); }
    SplitAtMatches(s, tailAt, p, e);
  }

  /** Ends the search has ruled out for the slash at `p` give no match. */
  lemma RuledOutEnds(s: string, tailAt: seq<bool>, p: nat, lo: nat, e: nat)
    requires TableCorrect(s, tailAt) && NoEndIn(s, tailAt, p, lo, |s|) && lo < e
    ensures !MatchesAt(s, p, e)
  {
    if e <= |s| { NoEndInMeans(s, tailAt, p, lo, |s|, e); }
    SplitAtMatches(s, tailAt, p, e);
  }

  lemma LaterSlashesRuledOut(s: string, tailAt: seq<bool>, p: nat)
    requires TableCorrect(s, tailAt) && NoSlashIn(s, tailAt, p + 1, |s|)
    ensures NoLaterSlash(s, p)
  {
    forall p': nat, e': nat | p < p' ensures !MatchesAt(s, p', e') {
      RuledOutSlashes(s, tailAt, p + 1, p', e');
    }
  }

  lemma LongerBasesRuledOut(s: string, tailAt: seq<bool>, p: nat, e: nat)
    requires TableCorrect(s, tailAt) && NoEndIn(s, tailAt, p, e, |s|)
    ensures NoLongerBase(s, p, e)
  {
    forall e': nat | e < e' ensures !MatchesAt(s, p, e') {
      RuledOutEnds(s, tailAt, p, e, e');
    }
  }

  /** The search's own guarantees, for any table of tail matches. */
  lemma SearchFound(s: string, tailAt: seq<bool>, p: nat, e: nat)
    requires |tailAt| == |s| + 1 && SearchSlash(s, tailAt, |s|) == Some((p, e))
    ensures SplitAt(s, tailAt, p, e) && NoSlashIn(s, tailAt, p + 1, |s|) && NoEndIn(s, tailAt, p, e, |s|)
  {
  }

  lemma SearchNotFound(s: string, tailAt: seq<bool>)
    requires |tailAt| == |s| + 1 && SearchSlash(s, tailAt, |s|).None?
    ensures NoSlashIn(s, tailAt, 0, |s|)
  {
  }

  /** When the search finds nothing, no split matches. */
  lemma SearchNoneMeansNoMatch(s: string, tailAt: seq<bool>)
    requires TableCorrect(s, tailAt) && SearchSlash(s, tailAt, |s|).None?
    ensures forall p: nat, e: nat :: !MatchesAt(s, p, e)
  {
    SearchNotFound(s, tailAt);
    forall p: nat, e: nat ensures !MatchesAt(s, p, e) {
      RuledOutSlashes(s, tailAt, 0, p, e);
    }
  }

  /** What the search finds is the split the regex engine prefers. */
  lemma SearchSomeIsPreferred(s: string, tailAt: seq<bool>, p: nat, e: nat)
    requires TableCorrect(s, tailAt) && SearchSlash(s, tailAt, |s|) == Some((p, e))
    ensures Preferred(s, p, e)
  {
    SearchFound(s, tailAt, p, e);
    PreferredWhenRuledOut(s, tailAt, p, e);
  }

  lemma PreferredWhenRuledOut(s: string, tailAt: seq<bool>, p: nat, e: nat)
    requires TableCorrect(s, tailAt) && SplitAt(s, tailAt, p, e)
    requires NoSlashIn(s, tailAt, p + 1, |s|) && NoEndIn(s, tailAt, p, e, |s|)
    ensures Preferred(s, p, e)
  {
    SplitAtMatches(s, tailAt, p, e);
    LaterSlashesRuledOut(s, tailAt, p);
    LongerBasesRuledOut(s, tailAt, p, e);
  }

  /**
   * `ParseAssetName`: the base name with the qualifier appended, the rarity
   * and the tier; None (the source logs a warning and returns null) when the
   * name does not match.
   */
  function ParseAssetName(s: string): (r: Option<ParsedItemName>)
    ensures r.Some? <==> exists p: nat, e: nat :: MatchesAt(s, p, e)
    ensures forall p: nat, e: nat :: Preferred(s, p, e) ==> r == Some(Groups(s, p, e))
    ensures r.Some? ==> exists p: nat, e: nat :: Preferred(s, p, e) && r == Some(Groups(s, p, e))
  {
    var tailAt := TailTable(s);
    TailTableCorrect(s);
    match SearchSlash(s, tailAt, |s|)
    case None =>
      SearchNoneMeansNoMatch(s, tailAt);
      None
    case Some((p, e)) =>
      SearchSomeIsPreferred(s, tailAt, p, e);
      PreferredUnique(s, p, e);
      Some(Groups(s, p, e))
  }

  lemma PreferredUnique(s: string, p: nat, e: nat)
    requires Preferred(s, p, e)
    ensures forall p': nat, e': nat :: Preferred(s, p', e') ==> p' == p && e' == e
  {
    forall p': nat, e': nat | Preferred(s, p', e') ensures p' == p && e' == e {
      assert !(p < p') && !(p' < p);
      assert !(e < e') && !(e' < e);
    }
  }
}

// ---------------------------------------------------------------------------
// What the parser reads back
// ---------------------------------------------------------------------------

module SurvivorNameFacts {
  import opened Wrappers
  import opened Text
  import opened Rarities
  import opened SurvivorNames

  /** The first letters of the rarity codes. */
  predicate IsCodeStart(c: char) { c == 'C' || c == 'U' || c == 'R' || c == 'V' || c == 'S' }

  lemma CodeStartsWithCodeStart(r: Rarity)
    ensures IsCodeStart(Code(r)[0])
  {
  }

  /** A tail can only begin at an underscore that is followed by the first letter of a rarity code. */
  lemma MatchTailStart(w: string)
    requires MatchTail(w).Some?
    ensures |w| >= 2 && w[0] == '_' && IsCodeStart(w[1])
  {
    var r := MatchHead(w).value;
    assert w[..|Head(r)|] == Head(r);
    assert w[1] == Head(r)[1] == Code(r)[0];
    CodeStartsWithCodeStart(r);
  }

  lemma QualifierHasNoSlash(q: string)
    requires IsQualifier(q)
    ensures '/' !in q
  {
    forall i | 0 <= i < |q| ensures q[i] != '/' {
      if i < |q| - 1 { assert IsLowerAscii(q[i]); }
    }
  }

  /** No character of a tail is a '/'. */
  lemma TailTextHasNoSlash(t: Tail)
    requires IsQualifier(t.qualifier) && AllDigits(t.digits)
    ensures '/' !in TailText(t)
  {
    var code := Code(t.rarity);
    assert '/' !in code by {
      forall i | 0 <= i < |code| ensures code[i] != '/' { }
    }
    QualifierHasNoSlash(t.qualifier);
    assert '/' !in t.digits by {
      forall i | 0 <= i < |t.digits| ensures t.digits[i] != '/' { assert IsDigit(t.digits[i]); }
    }
    assert TailText(t) == "_" + (code + "_") + (t.qualifier + "T" + t.digits);
  }

  /** Whether a tail could begin at index k of `w`. */
  predicate TailCouldStartAt(w: string, k: nat)
  {
    k + 1 < |w| && w[k] == '_' && IsCodeStart(w[k + 1])
  }

  /** After the rarity, nothing in `qualifier T digits ext` can begin another tail. */
  lemma NoTailInBody(q: string, digits: string, ext: string)
    requires IsQualifier(q) && AllDigits(digits) && '_' !in ext
    ensures forall j: nat :: !TailCouldStartAt(q + "T" + digits + ext, j)
    ensures !IsCodeStart((q + "T" + digits + ext)[0])
  {
    var x := q + "T" + digits + ext;
    assert x[|q|] == 'T';
    forall j: nat | j + 1 < |x| ensures x[j] != '_' || !IsCodeStart(x[j + 1]) {
      if j < |q| - 1 {
        assert x[j] == q[j];
      } else if j == |q| - 1 {
        assert x[j + 1] == 'T';
      } else if j == |q| {
      } else if j < |q| + 1 + |digits| {
        assert x[j] == digits[j - |q| - 1];
      } else {
        assert x[j] == ext[j - |q| - 1 - |digits|];
        assert x[j] in ext;
      }
    }
    if q != [] { assert x[0] == q[0]; }
  }

  /** Inside a spelled-out tail and its extension, no later position can begin another tail. */
  lemma NoTailInsideTail(t: Tail, ext: string)
    requires IsQualifier(t.qualifier) && AllDigits(t.digits) && '_' !in ext
    ensures forall k: nat :: 1 <= k ==> !TailCouldStartAt(TailText(t) + ext, k)
  {
    var code := Code(t.rarity);
    var x := t.qualifier + "T" + t.digits + ext;
    var w := TailText(t) + ext;
    assert w == "_" + (code + "_") + x;
    NoTailInBody(t.qualifier, t.digits, ext);
    forall k: nat | 1 <= k && k + 1 < |w| ensures w[k] != '_' || !IsCodeStart(w[k + 1]) {
      if k <= |code| {
        assert w[k] == code[k - 1];
      } else if k == |code| + 1 {
        assert w[k + 1] == x[0];
      } else {
        assert w[k] == x[k - |code| - 2] && w[k + 1] == x[k - |code| - 1];
        assert !TailCouldStartAt(x, k - |code| - 2);
      }
    }
  }

  /** An asset path as the game spells survivor assets: directory, base, tail and extension. */
  function AssetPath(dir: string, base: string, t: Tail, ext: string): string
  {
    dir + "/" + base + TailText(t) + ext
  }

  /** Parts that spell a name the regex reads back unchanged. */
  predicate WellFormedParts(base: string, t: Tail, ext: string)
  {
    && |base| > 0 && '/' !in base
    && IsQualifier(t.qualifier) && |t.digits| > 0 && AllDigits(t.digits)
    && IsSuffix(ext) && '/' !in ext && '_' !in ext
  }

  /** In a spelled-out asset path no slash follows the one before the base. */
  lemma NoSlashAfterDir(dir: string, base: string, t: Tail, ext: string)
    requires WellFormedParts(base, t, ext)
    ensures NoLaterSlash(AssetPath(dir, base, t, ext), |dir|)
  {
    var s := AssetPath(dir, base, t, ext);
    var p := |dir|;
    var rest := base + TailText(t) + ext;
    assert s == dir + "/" + rest;
    assert s[p + 1..] == rest;
    TailTextHasNoSlash(t);
    assert '/' !in rest;
    forall p': nat, e': nat | p < p' ensures !MatchesAt(s, p', e') {
      if p' < |s| {
        assert s[p'] == rest[p' - p - 1];
        assert s[p'] in rest;
      }
    }
  }

  /** The contrapositive of MatchTailStart. */
  lemma NoTailWithoutStart(w: string)
    requires |w| < 2 || w[0] != '_' || !IsCodeStart(w[1])
    ensures MatchTail(w).None?
  {
    if MatchTail(w).Some? { MatchTailStart(w); }
  }

  /** One candidate end past the real base. */
  lemma NoTailAt(s: string, p: nat, e: nat, w: string, e': nat)
    requires e <= |s| && s[e..] == w && e < e'
    requires forall k: nat :: 1 <= k ==> !TailCouldStartAt(w, k)
    ensures !MatchesAt(s, p, e')
  {
    if e' <= |s| {
      assert s[e'..] == w[e' - e..];
      assert !TailCouldStartAt(w, e' - e);
      NoTailWithoutStart(s[e'..]);
    }
  }

  /** In a spelled-out asset path no longer base than the real one ends at a tail. */
  lemma NoTailAfterBase(dir: string, base: string, t: Tail, ext: string)
    requires WellFormedParts(base, t, ext)
    ensures NoLongerBase(AssetPath(dir, base, t, ext), |dir|, |dir| + 1 + |base|)
  {
    var s := AssetPath(dir, base, t, ext);
    var p, e := |dir|, |dir| + 1 + |base|;
    var w := TailText(t) + ext;
    assert s == dir + "/" + base + w;
    assert s[e..] == w;
    NoTailInsideTail(t, ext);
    forall e': nat | e < e' ensures !MatchesAt(s, p, e') {
      NoTailAt(s, p, e, w, e');
    }
  }

  /**
   * Round trip: a name spelled from well-formed parts parses back to those
   * parts, the qualifier appended to the base and the tier read from its digits.
   */
  lemma ParseAssetPath(dir: string, base: string, t: Tail, ext: string)
    requires WellFormedParts(base, t, ext)
    ensures ParseAssetName(AssetPath(dir, base, t, ext))
         == Some(ParsedItemName(base + t.qualifier, t.rarity, DecimalValue(t.digits)))
  {
    var s := AssetPath(dir, base, t, ext);
    var p, e := |dir|, |dir| + 1 + |base|;
    var w := TailText(t) + ext;
    assert s == dir + "/" + base + w;
    assert s[p] == '/';
    assert s[p + 1..e] == base;
    assert s[e..] == w;
    MatchTailComplete(t, ext);
    NoSlashAfterDir(dir, base, t, ext);
    NoTailAfterBase(dir, base, t, ext);
    assert Preferred(s, p, e);
  }

  /** The game spells tiers with two digits ("T01"); a tier spelled so is read back as that tier. */
  lemma ParsePaddedTier(dir: string, base: string, r: Rarity, q: string, n: nat, ext: string)
    requires n < 100 && |base| > 0 && '/' !in base && IsQualifier(q)
    requires IsSuffix(ext) && '/' !in ext && '_' !in ext
    ensures ParseAssetName(AssetPath(dir, base, Tail(r, q, Pad2(n)), ext)) == Some(ParsedItemName(base + q, r, n))
  {
    ParseAssetPath(dir, base, Tail(r, q, Pad2(n)), ext);
  }

  /** A name without a '/' never matches: the regex needs one before the base. */
  lemma NoSlashNoMatch(s: string)
    requires '/' !in s
    ensures ParseAssetName(s) == None
  {
    forall p: nat, e: nat ensures !MatchesAt(s, p, e) {
      if p < |s| { assert s[p] in s; }
    }
  }

  /** The base name of one match is never empty and never holds a '/'. */
  lemma GroupsBaseName(s: string, p: nat, e: nat)
    requires MatchesAt(s, p, e)
    ensures |Groups(s, p, e).baseName| > 0 && '/' !in Groups(s, p, e).baseName
  {
    var t := MatchTail(s[e..]).value;
    QualifierHasNoSlash(t.qualifier);
    assert Groups(s, p, e).baseName == s[p + 1..e] + t.qualifier;
  }

  /** The parsed base name is never empty and never holds a '/'. */
  lemma ParsedBaseName(s: string)
    requires ParseAssetName(s).Some?
    ensures var n := ParseAssetName(s).value.baseName; |n| > 0 && '/' !in n
  {
    var p: nat, e: nat :| Preferred(s, p, e) && ParseAssetName(s) == Some(Groups(s, p, e));
    GroupsBaseName(s, p, e);
  }

  /** A name with a '/' at p and a spelled tail at e is directory, '/', base, tail and extension. */
  lemma SpelledAt(s: string, p: nat, e: nat, t: Tail)
    requires p < e <= |s| && s[p] == '/' && StartsWith(s[e..], TailText(t))
    ensures s == AssetPath(s[..p], s[p + 1..e], t, s[e + |TailText(t)|..])
  {
    var w := s[e..];
    var ext := w[|TailText(t)|..];
    assert w == TailText(t) + ext by {
      assert w[..|TailText(t)|] == TailText(t);
    }
    assert s[e + |TailText(t)|..] == ext;
    assert s == s[..p] + "/" + s[p + 1..e] + w by {
      assert s == s[..p] + [s[p]] + s[p + 1..e] + s[e..];
    }
  }

  /** The parts of one match, as ParseAssetPath takes them. */
  lemma MatchSpelled(s: string, p: nat, e: nat, n: ParsedItemName)
    requires MatchesAt(s, p, e) && n == Groups(s, p, e)
    ensures exists dir: string, base: string, t: Tail, ext: string ::
              && s == AssetPath(dir, base, t, ext)
              && |base| > 0 && '/' !in base
              && IsQualifier(t.qualifier) && |t.digits| > 0 && AllDigits(t.digits) && IsSuffix(ext)
              && n == ParsedItemName(base + t.qualifier, t.rarity, DecimalValue(t.digits))
  {
    var t := MatchTail(s[e..]).value;
    var base := s[p + 1..e];
    var ext := s[e + |TailText(t)|..];
    assert s[e..][|TailText(t)|..] == ext;
    SpelledAt(s, p, e, t);
    PartsWitness(s, n, s[..p], base, t, ext);
  }

  lemma PartsWitness(s: string, n: ParsedItemName, dir: string, base: string, t: Tail, ext: string)
    requires s == AssetPath(dir, base, t, ext)
    requires |base| > 0 && '/' !in base
    requires IsQualifier(t.qualifier) && |t.digits| > 0 && AllDigits(t.digits) && IsSuffix(ext)
    requires n == ParsedItemName(base + t.qualifier, t.rarity, DecimalValue(t.digits))
    ensures exists dir: string, base: string, t: Tail, ext: string ::
              && s == AssetPath(dir, base, t, ext)
              && |base| > 0 && '/' !in base
              && IsQualifier(t.qualifier) && |t.digits| > 0 && AllDigits(t.digits) && IsSuffix(ext)
              && n == ParsedItemName(base + t.qualifier, t.rarity, DecimalValue(t.digits))
  {
  }

  /**
   * The converse of ParseAssetPath: whatever parses is spelled as a directory,
   * '/', a non-empty base without '/', a rarity code, an optional qualifier,
   * 'T', at least one digit, and nothing or a '.' and anything after it.
   * Names with no '/', with a rarity outside the six codes, without tier
   * digits or with other text after the digits therefore do not parse.
   */
  lemma ParseAssetNameSound(s: string)
    requires ParseAssetName(s).Some?
    ensures exists dir: string, base: string, t: Tail, ext: string ::
              && s == AssetPath(dir, base, t, ext)
              && |base| > 0 && '/' !in base
              && IsQualifier(t.qualifier) && |t.digits| > 0 && AllDigits(t.digits) && IsSuffix(ext)
              && ParseAssetName(s).value == ParsedItemName(base + t.qualifier, t.rarity, DecimalValue(t.digits))
  {
    var p: nat, e: nat :| Preferred(s, p, e) && ParseAssetName(s) == Some(Groups(s, p, e));
    MatchSpelled(s, p, e, ParseAssetName(s).value);
  }

  /** ParseAssetPath for a name already spelled out. */
  lemma ParseSpelledPath(s: string, dir: string, base: string, t: Tail, ext: string, n: ParsedItemName)
    requires WellFormedParts(base, t, ext) && s == AssetPath(dir, base, t, ext)
    requires n == ParsedItemName(base + t.qualifier, t.rarity, DecimalValue(t.digits))
    ensures ParseAssetName(s) == Some(n)
  {
    ParseAssetPath(dir, base, t, ext);
  }

  lemma WorkerPartsWellFormed()
    ensures WellFormedParts("Worker_Leprechaun", Tail(VR, "", "01"), ".uasset")
  {
  }

  /** An asset path is its directory followed by the rest of the name. */
  lemma AssetPathSplit(dir: string, base: string, t: Tail, ext: string)
    ensures AssetPath(dir, base, t, ext) == dir + ("/" + base + TailText(t) + ext)
  {
  }

  lemma WorkerSpelling(dir: string)
    ensures dir + "/Worker_Leprechaun_VR_T01.uasset"
         == AssetPath(dir, "Worker_Leprechaun", Tail(VR, "", "01"), ".uasset")
  {
    WorkerRestSpelling();
    AssetPathSplit(dir, "Worker_Leprechaun", Tail(VR, "", "01"), ".uasset");
  }

  lemma WorkerRestSpelling()
    ensures "/" + "Worker_Leprechaun" + TailText(Tail(VR, "", "01")) + ".uasset" == "/Worker_Leprechaun_VR_T01.uasset"
  {
    assert TailText(Tail(VR, "", "01")) == "_VR_T01";
    assert "/" + "Worker_Leprechaun" == "/Worker_Leprechaun";
    assert "/Worker_Leprechaun" + "_VR_T01" == "/Worker_Leprechaun_VR_T01";
    assert "/Worker_Leprechaun_VR_T01" + ".uasset" == "/Worker_Leprechaun_VR_T01.uasset";
  }

  /** A worker's asset name, under any directory: base, rarity and tier come back. */
  lemma ExampleWorker(dir: string)
    ensures ParseAssetName(dir + "/Worker_Leprechaun_VR_T01.uasset")
         == Some(ParsedItemName("Worker_Leprechaun", VR, 1))
  {
    WorkerPartsWellFormed();
    WorkerSpelling(dir);
    assert DecimalValue("01") == 1;
    ParseSpelledPath(dir + "/Worker_Leprechaun_VR_T01.uasset", dir, "Worker_Leprechaun", Tail(VR, "", "01"),
                     ".uasset", ParsedItemName("Worker_Leprechaun", VR, 1));
  }

  lemma ManagerPartsWellFormed()
    ensures WellFormedParts("ManagerMartialArtist", Tail(SR, "samurai_", "03"), ".uasset")
  {
  }

  lemma ManagerSpelling(dir: string)
    ensures dir + "/ManagerMartialArtist_SR_samurai_T03.uasset"
         == AssetPath(dir, "ManagerMartialArtist", Tail(SR, "samurai_", "03"), ".uasset")
  {
    ManagerRestSpelling();
    AssetPathSplit(dir, "ManagerMartialArtist", Tail(SR, "samurai_", "03"), ".uasset");
  }

  lemma ManagerRestSpelling()
    ensures "/" + "ManagerMartialArtist" + TailText(Tail(SR, "samurai_", "03")) + ".uasset"
         == "/ManagerMartialArtist_SR_samurai_T03.uasset"
  {
    ManagerTailSpelling();
    assert "/" + "ManagerMartialArtist" == "/ManagerMartialArtist";
    assert "/ManagerMartialArtist" + "_SR_samurai_T03" == "/ManagerMartialArtist_SR_samurai_T03";
    assert "/ManagerMartialArtist_SR_samurai_T03" + ".uasset" == "/ManagerMartialArtist_SR_samurai_T03.uasset";
  }

  lemma ManagerTailSpelling()
    ensures TailText(Tail(SR, "samurai_", "03")) == "_SR_samurai_T03"
  {
  }

  /**
   * A lead survivor's asset name, under any directory: the lower-case
   * qualifier and its underscore are appended to the base name.
   */
  lemma ExampleManager(dir: string)
    ensures ParseAssetName(dir + "/ManagerMartialArtist_SR_samurai_T03.uasset")
         == Some(ParsedItemName("ManagerMartialArtistsamurai_", SR, 3))
  {
    ManagerPartsWellFormed();
    ManagerSpelling(dir);
    assert DecimalValue("03") == 3;
    ParseSpelledPath(dir + "/ManagerMartialArtist_SR_samurai_T03.uasset", dir, "ManagerMartialArtist",
                     Tail(SR, "samurai_", "03"), ".uasset", ParsedItemName("ManagerMartialArtistsamurai_", SR, 3));
  }
}
