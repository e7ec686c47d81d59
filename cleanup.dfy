/**
 * The final pass both choice extractors run over their result: every non-empty
 * choice loses a choice label (`A.` .. `D.`) that was swallowed into it, is
 * stripped, and is dropped when fewer than three characters remain.
 * `extract_choices` (study_app.py) removes only a label at the very end;
 * `extract_choices_ocr` (study_app_ocr.py) cuts at the first label.
 */
module Cleanup {
  import opened Text

  /** The first index at or after `i` where `[A-D]\.` occurs. */
  function LetterDotFrom(s: string, i: nat): (r: Option<nat>)
    ensures r.Some? ==> i <= r.value && LetterDotAt(s, r.value)
    ensures r.Some? ==> forall j: nat :: i <= j < r.value ==> !LetterDotAt(s, j)
    ensures r.None? ==> forall j: nat :: i <= j ==> !LetterDotAt(s, j)
    decreases |s| - i
  {
    if i + 1 >= |s| then None
    else if LetterDotAt(s, i) then Some(i)
    else LetterDotFrom(s, i + 1)
  }

  function FirstLetterDot(s: string): (r: Option<nat>)
    ensures r.Some? ==> LetterDotAt(s, r.value)
    ensures r.Some? ==> forall j: nat :: j < r.value ==> !LetterDotAt(s, j)
    ensures r.None? ==> forall j: nat :: !LetterDotAt(s, j)
  {
    LetterDotFrom(s, 0)
  }

  /** The first `[A-D]\.` at or after `j`, or the end of the text. */
  function LabelOrEnd(s: string, j: nat): (e: nat)
    requires j <= |s|
    ensures j <= e <= |s|
    ensures e == |s| || LetterDotAt(s, e)
    ensures forall k: nat :: j <= k < e ==> !LetterDotAt(s, k)
    decreases |s| - j
  {
    if j == |s| || LetterDotAt(s, j) then j else LabelOrEnd(s, j + 1)
  }

  /** `t` is whitespace followed by one choice label: what `\s*[A-D]\.` matches. */
  predicate IsLabelTail(t: string) {
    |t| >= 2 && LetterDotAt(t, |t| - 2) && forall i :: 0 <= i < |t| - 2 ==> IsWs(t[i])
  }

  /** The stripped text ends with a choice label. */
  predicate EndsWithLabel(t: string) {
    |t| >= 2 && LetterDotAt(t, |t| - 2)
  }

  /**
   * `re.sub(r'\s*[A-D]\.\s*$', '', v).strip()`: when the stripped choice ends
   * with a label, the result is what precedes that label and the whitespace
   * before it; otherwise it is the stripped choice.
   */
  function DropTrailingLabel(v: string): (r: string)
    ensures Trimmed(r)
    ensures !EndsWithLabel(Strip(v)) ==> r == Strip(v)
    ensures EndsWithLabel(Strip(v)) ==>
      |r| <= |Strip(v)| && r == Strip(v)[..|r|] && IsLabelTail(Strip(v)[|r|..])
  {
    var t := Strip(v);
    if EndsWithLabel(t) then
      var head := t[..|t| - 2];
      var r := head[..|head| - TrailWs(head)];
      assert Trimmed(r) by {
        if |r| > 0 {
          assert r[0] == t[0];
        }
      }
      assert t[|r|..] == head[|r|..] + t[|t| - 2..];
      r
    else t
  }

  lemma StripPrefixNoLabel(s: string, p: nat)
    requires p <= |s|
    requires forall j: nat :: j < p ==> !LetterDotAt(s, j)
    ensures forall j: nat :: !LetterDotAt(Strip(s[..p]), j)
  {
    var h := s[..p];
    var r := Strip(h);
    var off := LeadWs(h);
    forall j: nat ensures !LetterDotAt(r, j) {
      if j + 1 < |r| {
        assert r[j] == s[off + j] && r[j + 1] == s[off + j + 1];
        assert !LetterDotAt(s, off + j);
      }
    }
  }

  /**
   * `re.sub(r'\s*[A-D]\.\s*.*$', '', v).strip()` on a one-line choice: the
   * stripped text before the first label. No label survives.
   */
  function DropFromFirstLabel(v: string): (r: string)
    requires '\n' !in v
    ensures Trimmed(r) && |r| <= |v|
    ensures forall j: nat :: !LetterDotAt(r, j)
    ensures FirstLetterDot(v).None? ==> r == Strip(v)
    ensures forall c :: c in r ==> c in v
  {
    match FirstLetterDot(v)
    case None =>
      assert v[..|v|] == v;
      StripPrefixNoLabel(v, |v|);
      StripChars(v);
      Strip(v)
    case Some(p) =>
      StripPrefixNoLabel(v, p);
      StripChars(v[..p]);
      assert forall c :: c in v[..p] ==> c in v;
      Strip(v[..p])
  }

  datatype Mode = TrailingLabel | FirstLabel

  function Tidy(mode: Mode, v: string): (r: string)
    requires mode == FirstLabel ==> '\n' !in v
    ensures Trimmed(r)
  {
    match mode
    case TrailingLabel => DropTrailingLabel(v)
    case FirstLabel => DropFromFirstLabel(v)
  }

  /** No choice text spans two lines. */
  predicate SingleLineValues(m: map<char, string>) {
    forall k :: k in m ==> '\n' !in m[k]
  }

  /** Whether the cleanup keeps a choice. */
  predicate Kept(mode: Mode, v: string)
    requires mode == FirstLabel ==> '\n' !in v
  {
    v == "" || |Tidy(mode, v)| >= 3
  }

  /** The text a kept choice ends up with. */
  function Cleaned(mode: Mode, v: string): string
    requires mode == FirstLabel ==> '\n' !in v
  {
    if v == "" then "" else Tidy(mode, v)
  }

  /**
   * The choices after the final cleanup: an empty choice is left alone, any
   * other is tidied and dropped when shorter than three characters.
   */
  function CleanedChoices(mode: Mode, m: map<char, string>): (r: map<char, string>)
    requires mode == FirstLabel ==> SingleLineValues(m)
    ensures r.Keys <= m.Keys
    ensures forall k :: k in r ==> (m[k] == "" ==> r[k] == "")
    ensures forall k :: k in r && m[k] != "" ==> Trimmed(r[k]) && |r[k]| >= 3
    ensures forall k :: k in m && m[k] != "" && |Tidy(mode, m[k])| >= 3 ==> k in r
    ensures mode == FirstLabel ==> forall k, j: nat :: k in r ==> !LetterDotAt(r[k], j)
  {
    map k | k in m && Kept(mode, m[k]) :: Cleaned(mode, m[k])
  }

  /** The choices once the letters in `done` have been through the cleanup. */
  function PartlyCleaned(mode: Mode, m: map<char, string>, done: set<char>): map<char, string>
    requires mode == FirstLabel ==> SingleLineValues(m)
  {
    map k | k in m && (k in done ==> Kept(mode, m[k])) :: if k in done then Cleaned(mode, m[k]) else m[k]
  }

  lemma CleanOneMore(mode: Mode, m: map<char, string>, done: set<char>, k: char)
    requires mode == FirstLabel ==> SingleLineValues(m)
    requires k in m && k !in done
    ensures var r := PartlyCleaned(mode, m, done);
            PartlyCleaned(mode, m, done + {k}) ==
              if m[k] == "" then r
              else if |Tidy(mode, m[k])| < 3 then r - {k}
              else r[k := Tidy(mode, m[k])]
  {
  }

  lemma AllCleaned(mode: Mode, m: map<char, string>)
    requires mode == FirstLabel ==> SingleLineValues(m)
    ensures PartlyCleaned(mode, m, m.Keys) == CleanedChoices(mode, m)
    ensures PartlyCleaned(mode, m, {}) == m
  {
  }

  /** One iteration of the cleanup loop: tidy one choice, and delete it when too short. */
  method CleanLetter(mode: Mode, choices: map<char, string>, letter: char) returns (result: map<char, string>)
    requires letter in choices
    requires mode == FirstLabel ==> '\n' !in choices[letter]
    ensures choices[letter] == "" ==> result == choices
    ensures choices[letter] != "" && |Tidy(mode, choices[letter])| < 3 ==> result == choices - {letter}
    ensures choices[letter] != "" && |Tidy(mode, choices[letter])| >= 3 ==>
      result == choices[letter := Tidy(mode, choices[letter])]
  {
    result := choices;
    if result[letter] != "" {
      var tidied := Tidy(mode, result[letter]);
      result := result[letter := tidied];
      if |tidied| < 3 {
        result := result - {letter};
      }
    }
  }

  /** The loop over the choice letters that applies the final cleanup. */
  method FinalCleanup(mode: Mode, choices: map<char, string>) returns (result: map<char, string>)
    requires mode == FirstLabel ==> SingleLineValues(choices)
    ensures result == CleanedChoices(mode, choices)
  {
    AllCleaned(mode, choices);
    result := choices;
    var remaining := choices.Keys;
    ghost var done: set<char> := {};
    while remaining != {}
      invariant remaining !! done && remaining + done == choices.Keys
      invariant result == PartlyCleaned(mode, choices, done)
      decreases remaining
    {
      var letter :| letter in remaining;
      CleanOneMore(mode, choices, done, letter);
      result := CleanLetter(mode, result, letter);
      remaining := remaining - {letter};
      done := done + {letter};
    }
  }

  /** A cleaned choice is cleaned already: the cut at the first label is idempotent. */
  lemma FirstLabelCleanupIdempotent(m: map<char, string>)
    requires SingleLineValues(m)
    ensures SingleLineValues(CleanedChoices(FirstLabel, m))
    ensures CleanedChoices(FirstLabel, CleanedChoices(FirstLabel, m)) == CleanedChoices(FirstLabel, m)
  {
    var c := CleanedChoices(FirstLabel, m);
    forall k | k in c ensures '\n' !in c[k] {
      assert forall ch :: ch in DropFromFirstLabel(m[k]) ==> ch in m[k];
    }
    forall k | k in c && c[k] != "" ensures Tidy(FirstLabel, c[k]) == c[k] {
      assert FirstLetterDot(c[k]).None?;
      StripTrimmed(c[k]);
    }
  }
}
