/**
 * Text primitives shared by the whole pipeline: the ASCII character classes that
 * Python's `\s`, `\d`, `\w`, `[a-z]` and `[A-Z]` stand for, `str.strip`,
 * `re.sub(r'\s+', ' ', ...)`, `str.split` / `str.join`, `str.replace(p, "")`,
 * first-occurrence search, and the adjacency predicates used to state what the
 * normalisers guarantee.
 */
module Text {

  datatype Option<T> = None | Some(value: T)

  // ---------------------------------------------------------------------------
  // Character classes (ASCII only)

  /** Python's `\s` and `str.isspace()` restricted to ASCII. */
  predicate IsWs(c: char) {
    c == ' ' || c == '\t' || c == '\n' || c == '\r' || c == '\U{0B}' || c == '\U{0C}'
    || c == '\U{1C}' || c == '\U{1D}' || c == '\U{1E}' || c == '\U{1F}'
  }

  predicate IsLower(c: char) { 'a' <= c <= 'z' }
  predicate IsUpper(c: char) { 'A' <= c <= 'Z' }
  predicate IsDigit(c: char) { '0' <= c <= '9' }
  predicate IsAlpha(c: char) { IsLower(c) || IsUpper(c) }
  /** Python's `\w` restricted to ASCII. */
  predicate IsWordChar(c: char) { IsAlpha(c) || IsDigit(c) || c == '_' }
  /** `[A-D]`: the four choice labels. */
  predicate IsChoiceLetter(c: char) { 'A' <= c <= 'D' }

  /** The labels in the order the extractors visit them. */
  const ChoiceLetters: string := "ABCD"
  /** `[.!?]` */
  predicate IsSentenceEnd(c: char) { c == '.' || c == '!' || c == '?' }

  /** `[A-D]\.` occurs at position `i` of `s`. */
  predicate LetterDotAt(s: string, i: nat) {
    i + 1 < |s| && IsChoiceLetter(s[i]) && s[i + 1] == '.'
  }

  /** `^[A-D]\.` — the line starts a choice. */
  predicate StartsWithLetterDot(s: string) {
    LetterDotAt(s, 0)
  }

  function StartsWith(s: string, p: string): bool {
    |p| <= |s| && s[..|p|] == p
  }

  // ---------------------------------------------------------------------------
  // Leading and trailing whitespace; str.strip()

  function LeadWs(s: string): (n: nat)
    ensures n <= |s|
    ensures forall i :: 0 <= i < n ==> IsWs(s[i])
    ensures n < |s| ==> !IsWs(s[n])
  {
    if |s| > 0 && IsWs(s[0]) then 1 + LeadWs(s[1..]) else 0
  }

  function TrailWs(s: string): (n: nat)
    ensures n <= |s|
    ensures forall i :: |s| - n <= i < |s| ==> IsWs(s[i])
    ensures n < |s| ==> !IsWs(s[|s| - 1 - n])
  {
    if |s| > 0 && IsWs(s[|s| - 1]) then 1 + TrailWs(s[..|s| - 1]) else 0
  }

  /** Neither end of `s` is whitespace. */
  predicate Trimmed(s: string) {
    |s| == 0 || (!IsWs(s[0]) && !IsWs(s[|s| - 1]))
  }

  /** `str.lstrip()`. */
  function StripLeft(s: string): (r: string)
    ensures |r| <= |s| && r == s[|s| - |r|..]
    ensures |r| > 0 ==> !IsWs(r[0])
  {
    s[LeadWs(s)..]
  }

  /**
   * `str.strip()`: the longest slice of `s` that neither starts nor ends with
   * whitespace, everything outside it being whitespace.
   */
  function Strip(s: string): (r: string)
    ensures Trimmed(r)
    ensures LeadWs(s) + |r| <= |s|
    ensures forall k :: 0 <= k < |r| ==> r[k] == s[LeadWs(s) + k]
    ensures forall i :: 0 <= i < LeadWs(s) ==> IsWs(s[i])
    ensures forall i :: LeadWs(s) + |r| <= i < |s| ==> IsWs(s[i])
  {
    var t := s[LeadWs(s)..];
    t[..|t| - TrailWs(t)]
  }

  lemma StripSlice(s: string)
    ensures Strip(s) == s[LeadWs(s)..LeadWs(s) + |Strip(s)|]
  {
  }

  lemma StripTrimmed(s: string)
    requires Trimmed(s)
    ensures Strip(s) == s
  {
    if |s| > 0 {
      assert LeadWs(s) == 0;
      var t := s[LeadWs(s)..];
      assert t == s;
      assert TrailWs(t) == 0;
    }
  }

  lemma StripChars(s: string)
    ensures forall c :: c in Strip(s) ==> c in s
  {
    forall c | c in Strip(s) ensures c in s {
      var k :| 0 <= k < |Strip(s)| && Strip(s)[k] == c;
      assert s[LeadWs(s) + k] == c;
    }
  }

  // ---------------------------------------------------------------------------
  // Adjacency: which pairs of neighbouring characters may not occur

  datatype Pair =
    | WsWs        // two whitespace characters
    | LowerUpper  // `[a-z][A-Z]`, a concatenated word
    | PunctUpper  // `[.!?][A-Z]`, a concatenated sentence
    | RnPair      // `rn`, the OCR misread of `m`

  predicate Bad(p: Pair, a: char, b: char) {
    match p
    case WsWs => IsWs(a) && IsWs(b)
    case LowerUpper => IsLower(a) && IsUpper(b)
    case PunctUpper => IsSentenceEnd(a) && IsUpper(b)
    case RnPair => a == 'r' && b == 'n'
  }

  /** No two neighbouring characters of `s` form a `p` pair. */
  predicate Free(p: Pair, s: string) {
    forall i :: 0 <= i < |s| - 1 ==> !Bad(p, s[i], s[i + 1])
  }

  /** The only whitespace character in `s` is the plain space. */
  predicate OnlySpaces(s: string) {
    forall i :: 0 <= i < |s| ==> IsWs(s[i]) ==> s[i] == ' '
  }

  /** What `re.sub(r'\s+', ' ', ...)` leaves: single spaces only, no newline. */
  predicate WellSpaced(s: string) {
    OnlySpaces(s) && Free(WsWs, s)
  }

  lemma WellSpacedNoNewline(s: string)
    requires OnlySpaces(s)
    ensures '\n' !in s
  {
    if '\n' in s {
      var i :| 0 <= i < |s| && s[i] == '\n';
      assert IsWs(s[i]);
    }
  }

  lemma FreeConcat(p: Pair, a: string, b: string)
    ensures Free(p, a + b) <==>
      Free(p, a) && Free(p, b) && (|a| > 0 && |b| > 0 ==> !Bad(p, a[|a| - 1], b[0]))
  {
    var ab := a + b;
    if Free(p, a) && Free(p, b) && (|a| > 0 && |b| > 0 ==> !Bad(p, a[|a| - 1], b[0])) {
      forall i | 0 <= i < |ab| - 1 ensures !Bad(p, ab[i], ab[i + 1]) {
        if i + 1 < |a| {
          assert ab[i] == a[i] && ab[i + 1] == a[i + 1];
        } else if i + 1 == |a| {
          assert ab[i] == a[|a| - 1] && ab[i + 1] == b[0];
        } else {
          assert ab[i] == b[i - |a|] && ab[i + 1] == b[i - |a| + 1];
        }
      }
    }
    if Free(p, ab) {
      forall i | 0 <= i < |a| - 1 ensures !Bad(p, a[i], a[i + 1]) {
        assert ab[i] == a[i] && ab[i + 1] == a[i + 1];
      }
      forall i | 0 <= i < |b| - 1 ensures !Bad(p, b[i], b[i + 1]) {
        assert ab[|a| + i] == b[i] && ab[|a| + i + 1] == b[i + 1];
      }
      if |a| > 0 && |b| > 0 {
        assert ab[|a| - 1] == a[|a| - 1] && ab[|a|] == b[0];
      }
    }
  }

  lemma OnlySpacesConcat(a: string, b: string)
    ensures OnlySpaces(a + b) <==> OnlySpaces(a) && OnlySpaces(b)
  {
    var ab := a + b;
    if OnlySpaces(ab) {
      forall i | 0 <= i < |a| ensures IsWs(a[i]) ==> a[i] == ' ' {
        assert ab[i] == a[i];
      }
      forall i | 0 <= i < |b| ensures IsWs(b[i]) ==> b[i] == ' ' {
        assert ab[|a| + i] == b[i];
      }
    }
  }

  lemma FreeSlice(p: Pair, s: string, i: nat, j: nat)
    requires Free(p, s) && i <= j <= |s|
    ensures Free(p, s[i..j])
  {
    var t := s[i..j];
    forall k | 0 <= k < |t| - 1 ensures !Bad(p, t[k], t[k + 1]) {
      assert t[k] == s[i + k] && t[k + 1] == s[i + k + 1];
    }
  }

  lemma StripPreserves(s: string)
    ensures forall p :: Free(p, s) ==> Free(p, Strip(s))
    ensures OnlySpaces(s) ==> OnlySpaces(Strip(s))
  {
    StripSlice(s);
    forall p | Free(p, s) ensures Free(p, Strip(s)) {
      FreeSlice(p, s, LeadWs(s), LeadWs(s) + |Strip(s)|);
    }
  }

  // ---------------------------------------------------------------------------
  // Non-whitespace content

  /** The characters of `s` that are not whitespace, in order. */
  function RemoveWs(s: string): string {
    if s == [] then [] else (if IsWs(s[0]) then [] else [s[0]]) + RemoveWs(s[1..])
  }

  lemma {:induction false} RemoveWsConcat(a: string, b: string)
    ensures RemoveWs(a + b) == RemoveWs(a) + RemoveWs(b)
  {
    if a == [] {
      assert a + b == b;
    } else {
      assert (a + b)[1..] == a[1..] + b;
      RemoveWsConcat(a[1..], b);
    }
  }

  lemma {:induction false} RemoveWsAllWs(s: string)
    requires forall i :: 0 <= i < |s| ==> IsWs(s[i])
    ensures RemoveWs(s) == []
  {
    if s != [] {
      RemoveWsAllWs(s[1..]);
    }
  }

  /** Whitespace on either side adds nothing to the non-whitespace content. */
  lemma RemoveWsAround(x: string, y: string, z: string)
    requires forall i :: 0 <= i < |x| ==> IsWs(x[i])
    requires forall i :: 0 <= i < |z| ==> IsWs(z[i])
    ensures RemoveWs(x + y + z) == RemoveWs(y)
  {
    RemoveWsConcat(x + y, z);
    RemoveWsConcat(x, y);
    RemoveWsAllWs(x);
    RemoveWsAllWs(z);
  }

  lemma RemoveWsStrip(s: string)
    ensures RemoveWs(Strip(s)) == RemoveWs(s)
  {
    var a := LeadWs(s);
    var b := a + |Strip(s)|;
    StripSlice(s);
    var x, y, z := s[..a], s[a..b], s[b..];
    forall i | 0 <= i < |z| ensures IsWs(z[i]) {
      assert z[i] == s[b + i];
    }
    assert s == x + y + z;
    RemoveWsAround(x, y, z);
  }

  // ---------------------------------------------------------------------------
  // re.sub(r'\s+', ' ', s)

  /** Every maximal run of whitespace becomes one space. */
  function Collapse(s: string): (r: string)
    ensures WellSpaced(r)
    ensures |r| <= |s|
    ensures |s| > 0 <==> |r| > 0
    ensures |s| > 0 ==> r[0] == if IsWs(s[0]) then ' ' else s[0]
    decreases |s|
  {
    if s == [] then []
    else if IsWs(s[0]) then
      var rest := s[LeadWs(s)..];
      var t := Collapse(rest);
      FreeConcat(WsWs, [' '], t);
      OnlySpacesConcat([' '], t);
      [' '] + t
    else
      var t := Collapse(s[1..]);
      FreeConcat(WsWs, [s[0]], t);
      OnlySpacesConcat([s[0]], t);
      [s[0]] + t
  }

  lemma {:induction false} CollapseRemoveWs(s: string)
    ensures RemoveWs(Collapse(s)) == RemoveWs(s)
    decreases |s|
  {
    if s == [] {
    } else if IsWs(s[0]) {
      var n := LeadWs(s);
      var rest := s[n..];
      CollapseRemoveWs(rest);
      assert s == s[..n] + rest;
      RemoveWsConcat(s[..n], rest);
      RemoveWsAllWs(s[..n]);
      RemoveWsConcat([' '], Collapse(rest));
    } else {
      CollapseRemoveWs(s[1..]);
      RemoveWsConcat([s[0]], Collapse(s[1..]));
      assert s == [s[0]] + s[1..];
      RemoveWsConcat([s[0]], s[1..]);
    }
  }

  /** Collapsing keeps every adjacency property whose pairs contain no whitespace. */
  lemma {:induction false} CollapseFree(p: Pair, s: string)
    requires p != WsWs && Free(p, s)
    ensures Free(p, Collapse(s))
    decreases |s|
  {
    if s == [] {
    } else if IsWs(s[0]) {
      var rest := s[LeadWs(s)..];
      FreeSlice(p, s, LeadWs(s), |s|);
      CollapseFree(p, rest);
      FreeConcat(p, [' '], Collapse(rest));
    } else {
      FreeSlice(p, s, 1, |s|);
      CollapseFree(p, s[1..]);
      FreeConcat(p, [s[0]], Collapse(s[1..]));
    }
  }

  lemma {:induction false} CollapseChars(s: string)
    ensures forall c :: c in Collapse(s) ==> c in s || c == ' '
    decreases |s|
  {
    if s == [] {
    } else if IsWs(s[0]) {
      var rest := s[LeadWs(s)..];
      CollapseChars(rest);
      forall c | c in rest ensures c in s {
        var k :| 0 <= k < |rest| && rest[k] == c;
        assert s[LeadWs(s) + k] == c;
      }
    } else {
      CollapseChars(s[1..]);
      assert forall c :: c in s[1..] ==> c in s;
    }
  }

  lemma {:induction false} CollapseWellSpaced(s: string)
    requires WellSpaced(s)
    ensures Collapse(s) == s
    decreases |s|
  {
    if s == [] {
    } else if IsWs(s[0]) {
      assert s[0] == ' ';
      if |s| > 1 {
        assert !IsWs(s[1]);
      }
      assert LeadWs(s) == 1;
      FreeSlice(WsWs, s, 1, |s|);
      CollapseWellSpaced(s[1..]);
    } else {
      FreeSlice(WsWs, s, 1, |s|);
      CollapseWellSpaced(s[1..]);
    }
  }

  // ---------------------------------------------------------------------------
  // str.split(c) and sep.join(parts)

  function IndexOf(s: string, c: char): (r: Option<nat>)
    ensures r.Some? ==> r.value < |s| && s[r.value] == c && c !in s[..r.value]
    ensures r.None? ==> c !in s
  {
    if s == [] then None
    else if s[0] == c then Some(0)
    else
      match IndexOf(s[1..], c)
      case None => None
      case Some(k) =>
        assert s[..k + 1] == [s[0]] + s[1..][..k];
        Some(k + 1)
  }

  /** `s.split(c)`: the pieces between occurrences of `c`; `"".split(c) == [""]`. */
  function Split(s: string, c: char): (r: seq<string>)
    ensures |r| >= 1
    ensures forall i :: 0 <= i < |r| ==> c !in r[i]
    decreases |s|
  {
    match IndexOf(s, c)
    case None => [s]
    case Some(k) => [s[..k]] + Split(s[k + 1..], c)
  }

  /** `sep.join(parts)`. */
  function Join(sep: string, parts: seq<string>): string {
    if |parts| == 0 then ""
    else if |parts| == 1 then parts[0]
    else parts[0] + sep + Join(sep, parts[1..])
  }

  /** Splitting on `c` and joining with `c` gives the text back. */
  lemma {:induction false} JoinSplit(s: string, c: char)
    ensures Join([c], Split(s, c)) == s
    decreases |s|
  {
    match IndexOf(s, c)
    case None =>
    case Some(k) =>
      var rest := Split(s[k + 1..], c);
      JoinSplit(s[k + 1..], c);
      assert Split(s, c) == [s[..k]] + rest;
      assert Split(s, c)[1..] == rest;
      assert s == s[..k] + [c] + s[k + 1..];
  }

  lemma {:induction false} JoinAppend(sep: string, parts: seq<string>, x: string)
    requires |parts| > 0
    ensures Join(sep, parts + [x]) == Join(sep, parts) + sep + x
    decreases |parts|
  {
    if |parts| > 1 {
      assert (parts + [x])[1..] == parts[1..] + [x];
      JoinAppend(sep, parts[1..], x);
    }
  }

  lemma SplitWithoutSeparator(s: string, c: char)
    requires c !in s
    ensures Split(s, c) == [s]
  {
  }

  /** Joining pieces none of which holds `c`, with a separator free of `c`, gives a text free of `c`. */
  lemma {:induction false} JoinChars(sep: string, parts: seq<string>)
    ensures forall ch :: ch in Join(sep, parts) ==>
      ch in sep || exists i :: 0 <= i < |parts| && ch in parts[i]
  {
    if |parts| > 1 {
      JoinChars(sep, parts[1..]);
      forall ch | ch in Join(sep, parts)
        ensures ch in sep || exists i :: 0 <= i < |parts| && ch in parts[i]
      {
        if ch in parts[0] {
        } else if ch in sep {
        } else {
          assert ch in Join(sep, parts[1..]);
          if ch !in sep {
            var i :| 0 <= i < |parts[1..]| && ch in parts[1..][i];
            assert ch in parts[i + 1];
          }
        }
      }
    }
  }

  // ---------------------------------------------------------------------------
  // First occurrence of a pattern; s.split(pat)[0] and [1]

  predicate OccursAt(s: string, pat: string, j: int) {
    0 <= j && j + |pat| <= |s| && s[j..j + |pat|] == pat
  }

  /** The first index at or after `i` where `pat` occurs. */
  function FindFrom(s: string, pat: string, i: nat): (r: Option<nat>)
    requires |pat| > 0
    ensures r.Some? ==> i <= r.value && OccursAt(s, pat, r.value)
    ensures r.Some? ==> forall j :: i <= j < r.value ==> !OccursAt(s, pat, j)
    ensures r.None? ==> forall j :: i <= j ==> !OccursAt(s, pat, j)
    decreases |s| - i
  {
    if i + |pat| > |s| then None
    else if s[i..i + |pat|] == pat then Some(i)
    else FindFrom(s, pat, i + 1)
  }

  function Find(s: string, pat: string): (r: Option<nat>)
    requires |pat| > 0
  {
    FindFrom(s, pat, 0)
  }

  /** `s.split(pat)[0]`: the text before the first occurrence of `pat`. */
  function Before(s: string, pat: string): (r: string)
    requires |pat| > 0
    ensures |r| <= |s| && r == s[..|r|]
    ensures forall j :: !OccursAt(r, pat, j)
  {
    match Find(s, pat)
    case None =>
      assert forall j :: OccursAt(s, pat, j) ==> 0 <= j;
      s
    case Some(k) =>
      var r := s[..k];
      assert forall j :: OccursAt(r, pat, j) ==> OccursAt(s, pat, j) && j < k by {
        forall j | OccursAt(r, pat, j) ensures OccursAt(s, pat, j) && j < k {
          assert r[j..j + |pat|] == s[j..j + |pat|];
        }
      }
      r
  }

  /** The text after the first occurrence of `pat`, when there is one. */
  function After(s: string, pat: string): (r: Option<string>)
    requires |pat| > 0
  {
    match Find(s, pat)
    case None => None
    case Some(k) => Some(s[k + |pat|..])
  }

  /** The two halves around the first marker give the text back. */
  lemma BeforeAfterRoundTrip(s: string, pat: string)
    requires |pat| > 0
    ensures After(s, pat).None? <==> Before(s, pat) == s
    ensures After(s, pat).Some? ==> s == Before(s, pat) + pat + After(s, pat).value
  {
    match Find(s, pat)
    case None =>
    case Some(k) =>
      assert s == s[..k] + s[k..k + |pat|] + s[k + |pat|..];
      assert !OccursAt(s[..k], pat, k) by { assert k + |pat| > k; }
      assert OccursAt(s, pat, k);
  }

  /** A text without the pattern is its own first part: splitting is idempotent. */
  lemma BeforeIdempotent(s: string, pat: string)
    requires |pat| > 0
    ensures Before(Before(s, pat), pat) == Before(s, pat)
  {
    var b := Before(s, pat);
    match Find(b, pat)
    case None =>
    case Some(k) =>
      assert false;
  }

  // ---------------------------------------------------------------------------
  // s.replace(pat, "")

  predicate Contains(s: string, pat: string) {
    exists j :: 0 <= j <= |s| && OccursAt(s, pat, j)
  }

  /** The search finds an occurrence exactly when the pattern occurs. */
  lemma FindContains(s: string, pat: string)
    requires |pat| > 0
    ensures Find(s, pat).Some? <==> Contains(s, pat)
  {
    if Find(s, pat).Some? {
      assert OccursAt(s, pat, Find(s, pat).value);
    }
  }

  /** An occurrence inside a slice is an occurrence in the whole text. */
  lemma OccursInSlice(s: string, pat: string, i: nat, j: nat, k: int)
    requires i <= j <= |s| && OccursAt(s[i..j], pat, k)
    ensures OccursAt(s, pat, i + k)
  {
    forall t | 0 <= t < |pat| ensures s[i + k + t] == pat[t] {
      assert s[i..j][k..k + |pat|][t] == pat[t];
    }
    assert s[i + k..i + k + |pat|] == pat;
  }

  /** Stripping a text that holds no `pat` cannot create one. */
  lemma StripNoOccurrence(s: string, pat: string)
    requires forall j :: !OccursAt(s, pat, j)
    ensures !Contains(Strip(s), pat)
  {
    StripSlice(s);
    if Contains(Strip(s), pat) {
      var j :| 0 <= j <= |Strip(s)| && OccursAt(Strip(s), pat, j);
      OccursInSlice(s, pat, LeadWs(s), LeadWs(s) + |Strip(s)|, j);
    }
  }

  /** `s.replace(pat, "")`: leftmost, non-overlapping removal of every occurrence. */
  function RemoveAll(s: string, pat: string): (r: string)
    requires |pat| > 0
    ensures |r| <= |s|
    ensures forall c :: c in r ==> c in s
    decreases |s|
  {
    if |s| < |pat| then s
    else if s[..|pat|] == pat then RemoveAll(s[|pat|..], pat)
    else
      var t := RemoveAll(s[1..], pat);
      assert forall c :: c in s[1..] ==> c in s;
      [s[0]] + t
  }

  lemma {:induction false} RemoveAllAbsent(s: string, pat: string)
    requires |pat| > 0
    requires !Contains(s, pat)
    ensures RemoveAll(s, pat) == s
    decreases |s|
  {
    if |s| >= |pat| {
      assert !OccursAt(s, pat, 0);
      assert !Contains(s[1..], pat) by {
        forall j | 0 <= j <= |s[1..]| ensures !OccursAt(s[1..], pat, j) {
          if OccursAt(s[1..], pat, j) {
            assert s[1..][j..j + |pat|] == s[j + 1..j + 1 + |pat|];
            assert OccursAt(s, pat, j + 1);
          }
        }
      }
      RemoveAllAbsent(s[1..], pat);
    }
  }

  lemma {:induction false} RemoveAllShrinks(s: string, pat: string, j: nat)
    requires |pat| > 0
    requires OccursAt(s, pat, j)
    ensures |RemoveAll(s, pat)| <= |s| - |pat|
    decreases |s|
  {
    if s[..|pat|] == pat {
    } else {
      assert j > 0;
      assert s[1..][j - 1..j - 1 + |pat|] == s[j..j + |pat|];
      RemoveAllShrinks(s[1..], pat, j - 1);
    }
  }

  /** Before the first occurrence the text is kept as it is. */
  lemma {:induction false} RemoveAllUpTo(s: string, pat: string, k: nat)
    requires |pat| > 0 && k <= |s|
    requires forall j :: 0 <= j < k ==> !OccursAt(s, pat, j)
    ensures RemoveAll(s, pat) == s[..k] + RemoveAll(s[k..], pat)
    decreases k
  {
    if k == 0 {
      assert s[k..] == s;
    } else if |s| < |pat| {
      assert s == s[..k] + s[k..];
    } else {
      assert !OccursAt(s, pat, 0);
      forall j | 0 <= j < k - 1 ensures !OccursAt(s[1..], pat, j) {
        if OccursAt(s[1..], pat, j) {
          assert s[1..][j..j + |pat|] == s[j + 1..j + 1 + |pat|];
          assert OccursAt(s, pat, j + 1);
        }
      }
      RemoveAllUpTo(s[1..], pat, k - 1);
      assert s[1..][k - 1..] == s[k..];
      assert [s[0]] + s[1..][..k - 1] == s[..k];
    }
  }

  /**
   * `s.replace(pat, "")` keeps the text before the first occurrence, drops the
   * occurrence, and goes on after it; with `RemoveAllAbsent` this fixes the
   * result on every input.
   */
  lemma RemoveAllFirst(s: string, pat: string)
    requires |pat| > 0 && Find(s, pat).Some?
    ensures var k := Find(s, pat).value;
      RemoveAll(s, pat) == s[..k] + RemoveAll(s[k + |pat|..], pat)
  {
    var k := Find(s, pat).value;
    RemoveAllUpTo(s, pat, k);
    assert s[k..][..|pat|] == pat;
    assert s[k..][|pat|..] == s[k + |pat|..];
  }
}
