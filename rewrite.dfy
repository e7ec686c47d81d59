/**
 * The single `re.sub` passes out of which both text normalisers are built, each
 * written as a left-to-right scanner with Python's leftmost, non-overlapping
 * replacement semantics.
 *
 *  - `Pass(rule, s)`: the `re.sub(r'(X)(Y)', r'\1 \2', s)` family, which only
 *    inserts one space inside each match;
 *  - the OCR character repairs (`|` to `I`, `0` to `O`/`o`, `rn` to `m`, `1` to `l`);
 *  - page-marker deletion, blank-line folding and broken-line joining.
 */
module Rewrite {
  import opened Text

  // ---------------------------------------------------------------------------
  // Runs of a character class at the start of a text

  function DigitRun(s: string): (n: nat)
    ensures n <= |s|
    ensures forall i :: 0 <= i < n ==> IsDigit(s[i])
    ensures n < |s| ==> !IsDigit(s[n])
  {
    if |s| > 0 && IsDigit(s[0]) then 1 + DigitRun(s[1..]) else 0
  }

  function LowerRun(s: string): (n: nat)
    ensures n <= |s|
    ensures forall i :: 0 <= i < n ==> IsLower(s[i])
    ensures n < |s| ==> !IsLower(s[n])
  {
    if |s| > 0 && IsLower(s[0]) then 1 + LowerRun(s[1..]) else 0
  }

  // ---------------------------------------------------------------------------
  // Space-inserting substitutions: re.sub(r'(X)(Y)', r'\1 \2', s)

  datatype Rule =
    | LowerUpperRule       // ([a-z])([A-Z])
    | PunctUpperRule       // ([.!?])([A-Z])
    | DigitCapWord         // (\d)([A-Z][a-z])
    | LowerLegalTerm       // ([a-z])(The|State|Court|Federal)
    | Thousands            // (\d),(\d{3})([A-Z])
    | LowerStateUpper      // ([a-z])(State[A-Z])
    | LowerWord(w: string) // ([a-z])(w) for a fixed lower-case word w
    | DigitsDays           // (\d+)(days)
    | LongRunCapWord       // ([a-z]{3,})([A-Z][a-z]{2,})

  predicate WellFormed(rule: Rule) {
    rule.LowerWord? ==> |rule.w| > 0 && IsLower(rule.w[0])
  }

  /** `([a-z])(The|State|Court|Federal)`: the alternatives are tried in order. */
  function LegalTermMatch(s: string): (m: Option<(nat, nat)>)
    ensures m.Some? ==> 0 < m.value.0 < m.value.1 <= |s|
    ensures m.Some? ==> !IsWs(s[m.value.0 - 1]) && !IsWs(s[m.value.0])
  {
    if |s| >= 2 && IsLower(s[0]) then
      if StartsWith(s[1..], "The") then Some((1, 4))
      else if StartsWith(s[1..], "State") then Some((1, 6))
      else if StartsWith(s[1..], "Court") then Some((1, 6))
      else if StartsWith(s[1..], "Federal") then Some((1, 8))
      else None
    else None
  }

  /**
   * `(\d+)(days)`: `\d+` is greedy and `days` cannot start with a digit, so the
   * digits are the whole run of digits at the start.
   */
  function DaysMatch(s: string): (m: Option<(nat, nat)>)
    ensures m.Some? ==> 0 < m.value.0 < m.value.1 <= |s|
    ensures m.Some? ==> !IsWs(s[m.value.0 - 1]) && !IsWs(s[m.value.0])
  {
    var d := DigitRun(s);
    if d > 0 && StartsWith(s[d..], "days") then Some((d, d + 4)) else None
  }

  /**
   * `([a-z]{3,})([A-Z][a-z]{2,})`: `[a-z]{3,}` is greedy and backing off cannot
   * make `[A-Z]` match a lower-case letter, so the first group is the whole
   * lower-case run.
   */
  function CapWordMatch(s: string): (m: Option<(nat, nat)>)
    ensures m.Some? ==> 0 < m.value.0 < m.value.1 <= |s|
    ensures m.Some? ==> !IsWs(s[m.value.0 - 1]) && !IsWs(s[m.value.0])
  {
    var l := LowerRun(s);
    if l >= 3 && l < |s| && IsUpper(s[l]) && LowerRun(s[l + 1..]) >= 2
    then Some((l, l + 1 + LowerRun(s[l + 1..]))) else None
  }

  /**
   * Does `rule` match at the start of `s`? On a match, `Some((cut, len))`: the
   * match is `s[..len]` and the replacement puts one space at `cut`, between
   * the two groups. Both characters around the cut are non-whitespace.
   */
  function MatchAt(rule: Rule, s: string): (m: Option<(nat, nat)>)
    requires WellFormed(rule)
    ensures m.Some? ==> 0 < m.value.0 < m.value.1 <= |s|
    ensures m.Some? ==> !IsWs(s[m.value.0 - 1]) && !IsWs(s[m.value.0])
  {
    match rule
    case LowerUpperRule =>
      if |s| >= 2 && IsLower(s[0]) && IsUpper(s[1]) then Some((1, 2)) else None
    case PunctUpperRule =>
      if |s| >= 2 && IsSentenceEnd(s[0]) && IsUpper(s[1]) then Some((1, 2)) else None
    case DigitCapWord =>
      if |s| >= 3 && IsDigit(s[0]) && IsUpper(s[1]) && IsLower(s[2]) then Some((1, 3)) else None
    case LowerLegalTerm => LegalTermMatch(s)
    case Thousands =>
      if |s| >= 6 && IsDigit(s[0]) && s[1] == ',' && IsDigit(s[2]) && IsDigit(s[3])
         && IsDigit(s[4]) && IsUpper(s[5])
      then Some((5, 6)) else None
    case LowerStateUpper =>
      if |s| >= 7 && IsLower(s[0]) && StartsWith(s[1..], "State") && IsUpper(s[6])
      then Some((1, 7)) else None
    case LowerWord(w) =>
      if |s| >= 2 && IsLower(s[0]) && StartsWith(s[1..], w) then Some((1, 1 + |w|)) else None
    case DigitsDays => DaysMatch(s)
    case LongRunCapWord => CapWordMatch(s)
  }

  /** One `re.sub` of a space-inserting rule over the whole text. */
  function Pass(rule: Rule, s: string): (r: string)
    requires WellFormed(rule)
    ensures |s| <= |r|
    ensures |s| > 0 ==> r[0] == s[0]
    decreases |s|
  {
    if s == [] then []
    else
      match MatchAt(rule, s)
      case Some((cut, len)) => s[..cut] + " " + s[cut..len] + Pass(rule, s[len..])
      case None => [s[0]] + Pass(rule, s[1..])
  }

  /** One step of `Pass`: the match at the start, with a space at its cut, then the rest. */
  lemma PassUnfold(rule: Rule, s: string)
    requires WellFormed(rule) && s != []
    ensures MatchAt(rule, s).Some? ==>
      var (cut, len) := MatchAt(rule, s).value;
      Pass(rule, s) == s[..cut] + " " + s[cut..len] + Pass(rule, s[len..])
    ensures MatchAt(rule, s).None? ==> Pass(rule, s) == [s[0]] + Pass(rule, s[1..])
  {
  }

  /** Putting a space between two non-whitespace neighbours creates no pair of any kind. */
  lemma InsertSpaceFree(p: Pair, s: string, cut: nat, len: nat, rest: string)
    requires 0 < cut < len <= |s| && !IsWs(s[cut - 1]) && !IsWs(s[cut])
    requires Free(p, s) && Free(p, rest)
    requires |rest| > 0 ==> len < |s| && rest[0] == s[len]
    ensures Free(p, s[..cut] + " " + s[cut..len] + rest)
  {
    var a, b := s[..cut], s[cut..len];
    FreeSlice(p, s, 0, cut);
    FreeSlice(p, s, cut, len);
    FreeConcat(p, a, " ");
    FreeConcat(p, a + " ", b);
    FreeConcat(p, a + " " + b, rest);
  }

  /** Inserting a space between two non-whitespace characters breaks pairs and creates none. */
  lemma {:induction false} PassFree(rule: Rule, s: string, p: Pair)
    requires WellFormed(rule) && Free(p, s)
    ensures Free(p, Pass(rule, s))
    decreases |s|
  {
    if s != [] {
      PassUnfold(rule, s);
      var m := MatchAt(rule, s);
      if m.Some? {
        var (cut, len) := m.value;
        FreeSlice(p, s, len, |s|);
        PassFree(rule, s[len..], p);
        InsertSpaceFree(p, s, cut, len, Pass(rule, s[len..]));
      } else {
        FreeSlice(p, s, 1, |s|);
        PassFree(rule, s[1..], p);
        FreeConcat(p, [s[0]], Pass(rule, s[1..]));
      }
    }
  }

  lemma {:induction false} PassOnlySpaces(rule: Rule, s: string)
    requires WellFormed(rule) && OnlySpaces(s)
    ensures OnlySpaces(Pass(rule, s))
    decreases |s|
  {
    if s != [] {
      match MatchAt(rule, s)
      case Some((cut, len)) =>
        PassOnlySpaces(rule, s[len..]);
        OnlySpacesConcat(s[..cut], " ");
        OnlySpacesConcat(s[..cut] + " ", s[cut..len]);
        OnlySpacesConcat(s[..cut] + " " + s[cut..len], Pass(rule, s[len..]));
      case None =>
        PassOnlySpaces(rule, s[1..]);
        OnlySpacesConcat([s[0]], Pass(rule, s[1..]));
    }
  }

  /** A pass only inserts spaces: the non-whitespace characters are unchanged. */
  lemma InsertSpaceRemoveWs(s: string, cut: nat, len: nat, rest: string)
    requires 0 < cut < len <= |s|
    requires RemoveWs(rest) == RemoveWs(s[len..])
    ensures RemoveWs(s[..cut] + " " + s[cut..len] + rest) == RemoveWs(s)
  {
    var a, b, c := s[..cut], s[cut..len], s[len..];
    calc {
      RemoveWs(a + " " + b + rest);
    == { RemoveWsConcat(a + " " + b, rest); RemoveWsConcat(a + " ", b); RemoveWsConcat(a, " "); }
      RemoveWs(a) + RemoveWs(" ") + RemoveWs(b) + RemoveWs(c);
    == { RemoveWsAllWs(" "); }
      RemoveWs(a) + RemoveWs(b) + RemoveWs(c);
    == { RemoveWsConcat(a, b); RemoveWsConcat(a + b, c); }
      RemoveWs(a + b + c);
    == { assert a + b + c == s; }
      RemoveWs(s);
    }
  }

  lemma {:induction false} PassRemoveWs(rule: Rule, s: string)
    requires WellFormed(rule)
    ensures RemoveWs(Pass(rule, s)) == RemoveWs(s)
    decreases |s|
  {
    if s != [] {
      PassUnfold(rule, s);
      var m := MatchAt(rule, s);
      if m.Some? {
        var (cut, len) := m.value;
        PassRemoveWs(rule, s[len..]);
        InsertSpaceRemoveWs(s, cut, len, Pass(rule, s[len..]));
      } else {
        PassRemoveWs(rule, s[1..]);
        RemoveWsConcat([s[0]], Pass(rule, s[1..]));
        assert s == [s[0]] + s[1..];
        RemoveWsConcat([s[0]], s[1..]);
      }
    }
  }

  lemma {:induction false} PassChars(rule: Rule, s: string)
    requires WellFormed(rule)
    ensures forall c :: c in Pass(rule, s) ==> c in s || c == ' '
    decreases |s|
  {
    if s != [] {
      match MatchAt(rule, s)
      case Some((cut, len)) =>
        PassChars(rule, s[len..]);
        assert forall c :: c in s[..cut] || c in s[cut..len] || c in s[len..] ==> c in s;
      case None =>
        PassChars(rule, s[1..]);
        assert forall c :: c in s[1..] ==> c in s;
    }
  }

  /** After `re.sub(r'([a-z])([A-Z])', r'\1 \2', s)` no lower-case letter touches an upper-case one. */
  lemma {:induction false} LowerUpperPassSeparates(s: string)
    ensures Free(LowerUpper, Pass(LowerUpperRule, s))
    decreases |s|
  {
    if s != [] {
      match MatchAt(LowerUpperRule, s)
      case Some((cut, len)) =>
        var rest := Pass(LowerUpperRule, s[2..]);
        LowerUpperPassSeparates(s[2..]);
        assert Pass(LowerUpperRule, s) == [s[0], ' ', s[1]] + rest;
        FreeConcat(LowerUpper, [s[0], ' ', s[1]], rest);
      case None =>
        LowerUpperPassSeparates(s[1..]);
        FreeConcat(LowerUpper, [s[0]], Pass(LowerUpperRule, s[1..]));
    }
  }

  /** After `re.sub(r'([.!?])([A-Z])', r'\1 \2', s)` no sentence end touches an upper-case letter. */
  lemma {:induction false} PunctUpperPassSeparates(s: string)
    ensures Free(PunctUpper, Pass(PunctUpperRule, s))
    decreases |s|
  {
    if s != [] {
      match MatchAt(PunctUpperRule, s)
      case Some((cut, len)) =>
        var rest := Pass(PunctUpperRule, s[2..]);
        PunctUpperPassSeparates(s[2..]);
        assert Pass(PunctUpperRule, s) == [s[0], ' ', s[1]] + rest;
        FreeConcat(PunctUpper, [s[0], ' ', s[1]], rest);
      case None =>
        PunctUpperPassSeparates(s[1..]);
        FreeConcat(PunctUpper, [s[0]], Pass(PunctUpperRule, s[1..]));
    }
  }

  /** A sequence of passes, applied in order. */
  function PassAll(rules: seq<Rule>, s: string): (r: string)
    requires forall i :: 0 <= i < |rules| ==> WellFormed(rules[i])
    decreases |rules|
  {
    if rules == [] then s else PassAll(rules[1..], Pass(rules[0], s))
  }

  lemma {:induction false} PassAllPreserves(rules: seq<Rule>, s: string)
    requires forall i :: 0 <= i < |rules| ==> WellFormed(rules[i])
    ensures forall p :: Free(p, s) ==> Free(p, PassAll(rules, s))
    ensures OnlySpaces(s) ==> OnlySpaces(PassAll(rules, s))
    ensures RemoveWs(PassAll(rules, s)) == RemoveWs(s)
    decreases |rules|
  {
    if rules != [] {
      var t := Pass(rules[0], s);
      forall p | Free(p, s) ensures Free(p, t) { PassFree(rules[0], s, p); }
      if OnlySpaces(s) { PassOnlySpaces(rules[0], s); }
      PassRemoveWs(rules[0], s);
      PassAllPreserves(rules[1..], t);
    }
  }

  // ---------------------------------------------------------------------------
  // OCR character repairs

  /** `re.sub(r'\|', 'I', s)` */
  function BarToI(s: string): (r: string)
    ensures |r| == |s| && '|' !in r
    ensures forall i :: 0 <= i < |s| ==> r[i] == s[i] || (s[i] == '|' && r[i] == 'I')
  {
    seq(|s|, i requires 0 <= i < |s| => if s[i] == '|' then 'I' else s[i])
  }

  /** `re.sub(r'0(?=[A-Za-z])', 'O', s)`: the lookahead reads the input text. */
  function ZeroBeforeLetter(s: string): (r: string)
    ensures |r| == |s|
    ensures forall i :: 0 <= i < |s| ==> r[i] == s[i] || (s[i] == '0' && r[i] == 'O')
  {
    seq(|s|, i requires 0 <= i < |s| =>
      if s[i] == '0' && i + 1 < |s| && IsAlpha(s[i + 1]) then 'O' else s[i])
  }

  /** `re.sub(r'(?<=[A-Za-z])0', 'o', s)`: the lookbehind reads the input text. */
  function ZeroAfterLetter(s: string): (r: string)
    ensures |r| == |s|
    ensures forall i :: 0 <= i < |s| ==> r[i] == s[i] || (s[i] == '0' && r[i] == 'o')
  {
    seq(|s|, i requires 0 <= i < |s| =>
      if s[i] == '0' && i > 0 && IsAlpha(s[i - 1]) then 'o' else s[i])
  }

  /** `re.sub(r'(?<=[a-z])1(?=[a-z])', 'l', s)` */
  function OneBetweenLower(s: string): (r: string)
    ensures |r| == |s|
    ensures forall i :: 0 <= i < |s| ==> r[i] == s[i] || (s[i] == '1' && r[i] == 'l')
  {
    seq(|s|, i requires 0 <= i < |s| =>
      if s[i] == '1' && i > 0 && IsLower(s[i - 1]) && i + 1 < |s| && IsLower(s[i + 1])
      then 'l' else s[i])
  }

  /** `re.sub(r'rn', 'm', s)` */
  function RnToM(s: string): (r: string)
    ensures |r| <= |s|
    ensures |s| > 0 ==> |r| > 0 && r[0] == if StartsWith(s, "rn") then 'm' else s[0]
    ensures Free(RnPair, r)
    ensures forall c :: c in r ==> c in s || c == 'm'
    decreases |s|
  {
    if s == [] then []
    else if |s| >= 2 && s[0] == 'r' && s[1] == 'n' then
      var t := RnToM(s[2..]);
      FreeConcat(RnPair, ['m'], t);
      assert forall c :: c in s[2..] ==> c in s;
      ['m'] + t
    else
      var t := RnToM(s[1..]);
      FreeConcat(RnPair, [s[0]], t);
      assert forall c :: c in s[1..] ==> c in s;
      [s[0]] + t
  }

  /** A one-for-one substitution of characters can only bring in the characters it writes. */
  lemma MapChars(s: string, r: string, from: char, to: char)
    requires |r| == |s|
    requires forall i :: 0 <= i < |s| ==> r[i] == s[i] || (s[i] == from && r[i] == to)
    ensures forall c :: c in r ==> c in s || c == to
  {
    forall c | c in r ensures c in s || c == to {
      var i :| 0 <= i < |r| && r[i] == c;
      assert s[i] == c || c == to;
    }
  }

  /** Replacing `1` by `l` cannot create the pair `rn`. */
  lemma OneToLKeepsRnFree(s: string)
    requires Free(RnPair, s)
    ensures Free(RnPair, OneBetweenLower(s))
  {
    var r := OneBetweenLower(s);
    forall i | 0 <= i < |r| - 1 ensures !Bad(RnPair, r[i], r[i + 1]) {
      assert !Bad(RnPair, s[i], s[i + 1]);
    }
  }

  // ---------------------------------------------------------------------------
  // Deletions and line-break folding

  /** Length of a `--- Page \d+ ---` marker at the start of `s`, or 0. */
  function PageMarkerLen(s: string): (n: nat)
    ensures n <= |s|
  {
    if StartsWith(s, "--- Page ") then
      var d := DigitRun(s[9..]);
      if d > 0 && StartsWith(s[9 + d..], " ---") then 13 + d else 0
    else 0
  }

  /** A marker is `--- Page `, one or more digits, then ` ---`. */
  lemma PageMarkerShape(s: string)
    requires PageMarkerLen(s) > 0
    ensures var n := PageMarkerLen(s);
      n > 13 && StartsWith(s, "--- Page ") && s[n - 4..n] == " ---" &&
      forall i :: 9 <= i < n - 4 ==> IsDigit(s[i])
  {
    var d := DigitRun(s[9..]);
    assert s[9 + d..][..4] == s[9 + d..13 + d];
  }

  /** Length of the characters up to (excluding) the first newline. */
  function LineRun(s: string): (n: nat)
    ensures n <= |s|
    ensures forall i :: 0 <= i < n ==> s[i] != '\n'
    ensures n < |s| ==> s[n] == '\n'
  {
    if |s| > 0 && s[0] != '\n' then 1 + LineRun(s[1..]) else 0
  }

  /**
   * How much a marker at the start of `s` takes: the marker itself, and with
   * `toLineEnd` also the rest of its line and the newline ending it.
   */
  function MarkerSpan(s: string, toLineEnd: bool): (n: nat)
    requires PageMarkerLen(s) > 0
    ensures PageMarkerLen(s) <= n <= |s|
    ensures !toLineEnd ==> n == PageMarkerLen(s)
    ensures toLineEnd ==> forall i :: PageMarkerLen(s) <= i < n - 1 ==> s[i] != '\n'
  {
    var m := PageMarkerLen(s);
    var tail := s[m..];
    if toLineEnd then m + LineRun(tail) + (if LineRun(tail) < |tail| then 1 else 0) else m
  }

  /**
   * `re.sub(r'--- Page \d+ ---', '', s)` when `toLineEnd` is false, and
   * `re.sub(r'--- Page \d+ ---[^\n]*\n?', '', s)` when it is true.
   */
  function RemovePageMarkers(s: string, toLineEnd: bool): (r: string)
    ensures |r| <= |s|
    ensures forall c :: c in r ==> c in s
    decreases |s|
  {
    if s == [] then []
    else if PageMarkerLen(s) > 0 then
      var n := MarkerSpan(s, toLineEnd);
      assert forall c :: c in s[n..] ==> c in s;
      RemovePageMarkers(s[n..], toLineEnd)
    else
      assert forall c :: c in s[1..] ==> c in s;
      [s[0]] + RemovePageMarkers(s[1..], toLineEnd)
  }

  /** A page marker starts at position `j` of `s`. */
  predicate MarkerAt(s: string, j: nat)
    requires j <= |s|
  {
    PageMarkerLen(s[j..]) > 0
  }

  /** A character that does not open a marker is kept. */
  lemma RemovePageMarkersKeep(s: string, toLineEnd: bool)
    requires s != [] && PageMarkerLen(s) == 0
    ensures RemovePageMarkers(s, toLineEnd) == [s[0]] + RemovePageMarkers(s[1..], toLineEnd)
  {
  }

  /** One kept character in front of a text already split at `k - 1`. */
  lemma ConsSplit(s: string, k: nat, x: string, y: string, z: string)
    requires 0 < k <= |s|
    requires x == [s[0]] + y && y == s[1..][..k - 1] + z
    ensures x == s[..k] + z
  {
    assert [s[0]] + s[1..][..k - 1] == s[..k];
  }

  /** Markers are not found after shifting the text by one. */
  lemma NoMarkerShift(s: string, k: nat)
    requires 0 < k <= |s|
    requires forall j :: 0 <= j < k ==> !MarkerAt(s, j)
    ensures forall j :: 0 <= j < k - 1 ==> !MarkerAt(s[1..], j)
  {
    forall j | 0 <= j < k - 1 ensures !MarkerAt(s[1..], j) {
      assert !MarkerAt(s, j + 1);
      assert s[1..][j..] == s[j + 1..];
    }
  }

  /** The text before the first marker is kept as it is. */
  lemma {:induction false} RemovePageMarkersUpTo(s: string, toLineEnd: bool, k: nat)
    requires k <= |s|
    requires forall j :: 0 <= j < k ==> !MarkerAt(s, j)
    ensures RemovePageMarkers(s, toLineEnd) == s[..k] + RemovePageMarkers(s[k..], toLineEnd)
    decreases k
  {
    if k == 0 {
      assert s[k..] == s;
    } else {
      NoMarkerShift(s, k);
      RemovePageMarkersUpTo(s[1..], toLineEnd, k - 1);
      assert PageMarkerLen(s) == 0 by { assert !MarkerAt(s, 0); assert s[0..] == s; }
      RemovePageMarkersKeep(s, toLineEnd);
      assert s[1..][k - 1..] == s[k..];
      ConsSplit(s, k, RemovePageMarkers(s, toLineEnd), RemovePageMarkers(s[1..], toLineEnd),
                RemovePageMarkers(s[k..], toLineEnd));
    }
  }

  /**
   * The first marker, at `k`, goes together with what its pattern takes after
   * it; everything before it stays, and the removal goes on after the span.
   */
  lemma RemovePageMarkersFirst(s: string, toLineEnd: bool, k: nat)
    requires k < |s| && MarkerAt(s, k)
    requires forall j :: 0 <= j < k ==> !MarkerAt(s, j)
    ensures RemovePageMarkers(s, toLineEnd) ==
            s[..k] + RemovePageMarkers(s[k + MarkerSpan(s[k..], toLineEnd)..], toLineEnd)
  {
    RemovePageMarkersUpTo(s, toLineEnd, k);
    assert s[k..][MarkerSpan(s[k..], toLineEnd)..] == s[k + MarkerSpan(s[k..], toLineEnd)..];
  }

  /** A text without a marker is left alone. */
  lemma RemovePageMarkersNone(s: string, toLineEnd: bool)
    requires forall j :: 0 <= j < |s| ==> !MarkerAt(s, j)
    ensures RemovePageMarkers(s, toLineEnd) == s
  {
    RemovePageMarkersUpTo(s, toLineEnd, |s|);
    assert s[..|s|] == s;
  }

  /** Index of the last newline in `s`. */
  function LastNewline(s: string): (r: Option<nat>)
    ensures r.Some? ==> r.value < |s| && s[r.value] == '\n'
    ensures r.None? ==> '\n' !in s
  {
    if s == [] then None
    else if s[|s| - 1] == '\n' then Some(|s| - 1)
    else
      assert s == s[..|s| - 1] + [s[|s| - 1]];
      LastNewline(s[..|s| - 1])
  }

  /**
   * `re.sub(r'\n\s*\n', '\n\n', s)`: `\s*` is greedy and gives back characters
   * until the second `\n` matches, so the match ends at the last newline of the
   * whitespace run that follows the first one.
   */
  function FoldBlankLines(s: string): string
    decreases |s|
  {
    if s == [] then []
    else if s[0] == '\n' then
      var w := LeadWs(s[1..]);
      match LastNewline(s[1..1 + w])
      case Some(k) => "\n\n" + FoldBlankLines(s[k + 2..])
      case None => [s[0]] + FoldBlankLines(s[1..])
    else [s[0]] + FoldBlankLines(s[1..])
  }

  lemma {:induction false} FoldBlankLinesNoNewline(s: string)
    requires '\n' !in s
    ensures FoldBlankLines(s) == s
    decreases |s|
  {
    if s != [] {
      FoldBlankLinesNoNewline(s[1..]);
    }
  }

  /** Length of the run of newlines at the start of `s`. */
  function NewlineRun(s: string): (n: nat)
    ensures n <= |s|
  {
    if |s| > 0 && s[0] == '\n' then 1 + NewlineRun(s[1..]) else 0
  }

  /** `re.sub(r'\n{3,}', '\n\n', s)` */
  function CapNewlines(s: string): string
    decreases |s|
  {
    if s == [] then []
    else if NewlineRun(s) >= 3 then "\n\n" + CapNewlines(s[NewlineRun(s)..])
    else [s[0]] + CapNewlines(s[1..])
  }

  lemma {:induction false} CapNewlinesNoNewline(s: string)
    requires '\n' !in s
    ensures CapNewlines(s) == s
    decreases |s|
  {
    if s != [] {
      assert NewlineRun(s) == 0;
      CapNewlinesNoNewline(s[1..]);
    }
  }

  /** `re.sub(r'([a-z,])\n([a-z])', r'\1 \2', s)` */
  function JoinBrokenLines(s: string): string
    decreases |s|
  {
    if s == [] then []
    else if |s| >= 3 && (IsLower(s[0]) || s[0] == ',') && s[1] == '\n' && IsLower(s[2]) then
      [s[0], ' ', s[2]] + JoinBrokenLines(s[3..])
    else [s[0]] + JoinBrokenLines(s[1..])
  }

  lemma {:induction false} JoinBrokenLinesNoNewline(s: string)
    requires '\n' !in s
    ensures JoinBrokenLines(s) == s
    decreases |s|
  {
    if s != [] {
      JoinBrokenLinesNoNewline(s[1..]);
    }
  }
}
