/** The `stripAnsi` helper of the newline-framing read loop: a global replace, by the empty
    string, of the regular expression

      [ESC CSI] [[()#;?]* (?:[0-9]{1,4}(?:;[0-9]{0,4})*)? [0-9A-ORZcf-nqry=><]

    where ESC is U+001B and CSI is U+009B. The match at a position is computed in the order a
    backtracking regular-expression engine tries the alternatives (`MatchEndAt`), and is then
    proved to be the LONGEST string of the expression's language that starts there
    (`MatchIsLongest`). */
module AnsiStrip {
  import opened Wrappers
  import opened Strings

  const ESC: char := '\U{1B}'
  const CSI: char := '\U{9B}'
  /** The longest run of digits a parameter may have. */
  const MaxDigits: nat := 4

  /** `[\u001b\u009b]` */
  predicate IsIntro(c: char) { c == ESC || c == CSI }

  /** `[[()#;?]` */
  predicate IsPrefixChar(c: char)
  {
    c == '[' || c == '(' || c == ')' || c == '#' || c == ';' || c == '?'
  }

  /** `[0-9]` */
  predicate IsDigit(c: char) { '0' <= c <= '9' }

  /** `[0-9A-ORZcf-nqry=><]` */
  predicate IsFinal(c: char)
  {
    IsDigit(c) || ('A' <= c <= 'O') || c == 'R' || c == 'Z' || c == 'c' || ('f' <= c <= 'n')
    || c == 'q' || c == 'r' || c == 'y' || c == '=' || c == '>' || c == '<'
  }

  // ---------------------------------------------------------------------------------------
  // The search, in the engine's order of preference
  // ---------------------------------------------------------------------------------------

  /** Greedy `[[()#;?]*` from `a`: the length of the run of prefix characters. */
  function PrefixRun(s: string, a: nat): (n: nat)
    requires a <= |s|
    ensures a + n <= |s|
    ensures a + n == |s| || !IsPrefixChar(s[a + n])
    decreases |s| - a
  {
    if a < |s| && IsPrefixChar(s[a]) then 1 + PrefixRun(s, a + 1) else 0
  }

  /** Greedy `[0-9]{0,cap}` from `a`: how many digits it takes. */
  function DigitRun(s: string, a: nat, cap: nat): (n: nat)
    requires a <= |s|
    ensures n <= cap && a + n <= |s|
    ensures n > 0 ==> IsDigit(s[a + n - 1])
    ensures n == cap || a + n == |s| || !IsDigit(s[a + n])
    decreases cap
  {
    if cap > 0 && a < |s| && IsDigit(s[a]) then 1 + DigitRun(s, a + 1, cap - 1) else 0
  }

  /** The closing `[0-9A-ORZcf-nqry=><]` at `m`: the end of the match if it fits. */
  function FinalAt(s: string, m: nat): (r: Option<nat>)
    requires m <= |s|
    ensures r.Some? <==> m < |s| && IsFinal(s[m])
    ensures r.Some? ==> r.value == m + 1
  {
    if m < |s| && IsFinal(s[m]) then Some(m + 1) else None
  }

  /** `(?:;[0-9]{0,4})*` at `k`, followed by the closing character: one more iteration is
      tried before none. */
  function StarEnd(s: string, k: nat): (r: Option<nat>)
    requires k <= |s|
    decreases |s| - k, 5
  {
    if k < |s| && s[k] == ';' then IterTry(s, k, DigitRun(s, k + 1, MaxDigits)) else FinalAt(s, k)
  }

  /** One iteration `;` followed by `e` digits, then the rest of the star; on failure the
      iteration gives back one digit, and after zero digits the star stops at `k`. */
  function IterTry(s: string, k: nat, e: nat): (r: Option<nat>)
    requires k < |s| && e <= MaxDigits && k + 1 + e <= |s|
    decreases |s| - k, e
  {
    match StarEnd(s, k + 1 + e)
    case Some(r) => Some(r)
    case None => if e == 0 then FinalAt(s, k) else IterTry(s, k, e - 1)
  }

  /** The optional group at `j` with its first run of `d` digits, then `d - 1`, ..., then the
      group skipped altogether. */
  function GroupTry(s: string, j: nat, d: nat): (r: Option<nat>)
    requires d <= MaxDigits && j + d <= |s|
    decreases d
  {
    if d == 0 then FinalAt(s, j)
    else
      match StarEnd(s, j + d)
      case Some(r) => Some(r)
      case None => GroupTry(s, j, d - 1)
  }

  /** The group at `j`, its first run of digits taken greedily. */
  function GroupAt(s: string, j: nat): Option<nat>
    requires j <= |s|
  {
    GroupTry(s, j, DigitRun(s, j, MaxDigits))
  }

  /** The prefix star after the intro character at `i`, stopped at `j`, then giving its
      characters back one at a time. */
  function PrefixTry(s: string, i: nat, j: nat): (r: Option<nat>)
    requires i < j <= |s|
    decreases j
  {
    var g := GroupAt(s, j);
    if g.Some? then g else if j == i + 1 then None else PrefixTry(s, i, j - 1)
  }

  /** Where the optional group may start: after the intro character and the longest prefix
      run. */
  function GroupStart(s: string, i: nat): (j: nat)
    requires i < |s|
    ensures i < j <= |s|
  {
    i + 1 + PrefixRun(s, i + 1)
  }

  /** The end of the match that starts at `i`, if one does. */
  function MatchEndAt(s: string, i: nat): (r: Option<nat>)
    requires i <= |s|
    ensures r.Some? ==> i < |s| && IsIntro(s[i]) && i + 2 <= r.value <= |s|
  {
    if i < |s| && IsIntro(s[i]) then
      PrefixTryBounds(s, i, GroupStart(s, i));
      PrefixTry(s, i, GroupStart(s, i))
    else None
  }

  /** One step of the prefix search, spelled out. */
  lemma {:induction false} PrefixTryUnfold(s: string, i: nat, j: nat)
    requires i < j <= |s|
    ensures PrefixTry(s, i, j) ==
              if GroupAt(s, j).Some? then GroupAt(s, j) else if j == i + 1 then None else PrefixTry(s, i, j - 1)
  {
  }

  lemma {:induction false} StarEndBounds(s: string, k: nat)
    requires k <= |s|
    ensures StarEnd(s, k).Some? ==> k < StarEnd(s, k).value <= |s|
    decreases |s| - k, 5
  {
    if k < |s| && s[k] == ';' {
      IterTryBounds(s, k, DigitRun(s, k + 1, MaxDigits));
    }
  }

  lemma {:induction false} IterTryBounds(s: string, k: nat, e: nat)
    requires k < |s| && e <= MaxDigits && k + 1 + e <= |s|
    ensures IterTry(s, k, e).Some? ==> k < IterTry(s, k, e).value <= |s|
    decreases |s| - k, e
  {
    StarEndBounds(s, k + 1 + e);
    if e > 0 {
      IterTryBounds(s, k, e - 1);
    }
  }

  lemma {:induction false} GroupTryBounds(s: string, j: nat, d: nat)
    requires d <= MaxDigits && j + d <= |s|
    ensures GroupTry(s, j, d).Some? ==> j < GroupTry(s, j, d).value <= |s|
    decreases d
  {
    if d > 0 {
      StarEndBounds(s, j + d);
      GroupTryBounds(s, j, d - 1);
    }
  }

  lemma {:induction false} PrefixTryBounds(s: string, i: nat, j: nat)
    requires i < j <= |s|
    ensures PrefixTry(s, i, j).Some? ==> i + 1 < PrefixTry(s, i, j).value <= |s|
    decreases j
  {
    GroupTryBounds(s, j, DigitRun(s, j, MaxDigits));
    PrefixTryUnfold(s, i, j);
    if j > i + 1 {
      PrefixTryBounds(s, i, j - 1);
    }
  }

  // ---------------------------------------------------------------------------------------
  // The language of the expression, stated without any search
  // ---------------------------------------------------------------------------------------

  /** `[0-9]{1,4}(;[0-9]{0,4})*` after its first digit, read as an automaton whose state
      `run` is the number of digits in the current run: a digit is accepted while the run is
      shorter than four, a `;` always, and it starts a new run. */
  predicate Params(g: string, run: nat)
    decreases |g|
  {
    |g| == 0
    || (IsDigit(g[0]) && run < MaxDigits && Params(g[1..], run + 1))
    || (g[0] == ';' && Params(g[1..], 0))
  }

  /** `[0-9]{1,4}(;[0-9]{0,4})*` */
  predicate Group(g: string)
  {
    |g| > 0 && IsDigit(g[0]) && Params(g[1..], 1)
  }

  /** `[[()#;?]*(?:[0-9]{1,4}(;[0-9]{0,4})*)?` */
  predicate Body(b: string)
    decreases |b|
  {
    |b| == 0 || Group(b) || (IsPrefixChar(b[0]) && Body(b[1..]))
  }

  /** `t` is a whole escape sequence of the expression. */
  predicate IsEscape(t: string)
  {
    |t| >= 2 && IsIntro(t[0]) && IsFinal(t[|t| - 1]) && Body(t[1..|t| - 1])
  }

  // Where the automaton stops reading, on positions of `s`.

  function RunEnd(s: string, m: nat, run: nat): (r: nat)
    requires m <= |s| && run <= MaxDigits
    ensures m <= r <= |s|
    decreases |s| - m
  {
    if m < |s| && IsDigit(s[m]) && run < MaxDigits then RunEnd(s, m + 1, run + 1)
    else if m < |s| && s[m] == ';' then RunEnd(s, m + 1, 0)
    else m
  }

  function GroupEnd(s: string, a: nat): (r: nat)
    requires a <= |s|
    ensures a <= r <= |s|
  {
    if a < |s| && IsDigit(s[a]) then RunEnd(s, a + 1, 1) else a
  }

  function BodyEnd(s: string, a: nat): (r: nat)
    requires a <= |s|
    ensures a <= r <= |s|
    decreases |s| - a
  {
    if a < |s| && IsPrefixChar(s[a]) then BodyEnd(s, a + 1) else GroupEnd(s, a)
  }

  lemma {:induction false} PrefixRunChars(s: string, a: nat, m: nat)
    requires a <= |s| && a <= m < a + PrefixRun(s, a)
    ensures IsPrefixChar(s[m])
    decreases m - a
  {
    if a < m {
      PrefixRunChars(s, a + 1, m);
    }
  }

  lemma {:induction false} RunEndChars(s: string, a: nat, run: nat, m: nat)
    requires a <= |s| && run <= MaxDigits && a <= m < RunEnd(s, a, run)
    ensures IsDigit(s[m]) || s[m] == ';'
    decreases m - a
  {
    if a < m {
      if IsDigit(s[a]) && run < MaxDigits {
        RunEndChars(s, a + 1, run + 1, m);
      } else {
        RunEndChars(s, a + 1, 0, m);
      }
    }
  }

  lemma {:induction false} GroupEndChars(s: string, a: nat, m: nat)
    requires a <= |s| && a <= m < GroupEnd(s, a)
    ensures IsDigit(s[m]) || s[m] == ';'
  {
    if a < m {
      RunEndChars(s, a + 1, 1, m);
    }
  }

  lemma {:induction false} ParamsIff(s: string, a: nat, b: nat, run: nat)
    requires a <= b <= |s| && run <= MaxDigits
    ensures Params(s[a..b], run) <==> b <= RunEnd(s, a, run)
    decreases b - a
  {
    if a < b {
      var g := s[a..b];
      assert g[0] == s[a] && g[1..] == s[a + 1..b];
      if IsDigit(s[a]) && run < MaxDigits {
        ParamsIff(s, a + 1, b, run + 1);
      } else if s[a] == ';' {
        ParamsIff(s, a + 1, b, 0);
      }
    }
  }

  lemma {:induction false} BodyIff(s: string, a: nat, b: nat)
    requires a <= b <= |s|
    ensures Body(s[a..b]) <==> b <= BodyEnd(s, a)
    decreases b - a
  {
    if a < b {
      var t := s[a..b];
      assert t[0] == s[a] && t[1..] == s[a + 1..b];
      if IsPrefixChar(s[a]) {
        BodyIff(s, a + 1, b);
      } else if IsDigit(s[a]) {
        ParamsIff(s, a + 1, b, 1);
      }
    }
  }

  /** Where the escape sequences starting at `i` may end. */
  lemma {:induction false} EscapeIff(s: string, i: nat, e: nat)
    requires i < e <= |s|
    ensures IsEscape(s[i..e]) <==>
              e >= i + 2 && IsIntro(s[i]) && IsFinal(s[e - 1]) && e - 1 <= BodyEnd(s, i + 1)
  {
    if e >= i + 2 {
      var t := s[i..e];
      var inner, middle := t[1..|t| - 1], s[i + 1..e - 1];
      assert forall m :: 0 <= m < |inner| ==> inner[m] == middle[m];
      assert inner == middle;
      BodyIff(s, i + 1, e - 1);
    }
  }

  lemma {:induction false} BodyEndAfterPrefix(s: string, a: nat)
    requires a <= |s|
    ensures BodyEnd(s, a) == GroupEnd(s, a + PrefixRun(s, a))
    decreases |s| - a
  {
    if a < |s| && IsPrefixChar(s[a]) {
      BodyEndAfterPrefix(s, a + 1);
    }
  }

  // ---------------------------------------------------------------------------------------
  // The search returns the longest escape sequence
  // ---------------------------------------------------------------------------------------

  /** The end of the last digit of `s[lo..hi]`, if it has one. */
  function LastDigitEnd(s: string, lo: nat, hi: nat): (r: Option<nat>)
    requires lo <= hi <= |s|
    ensures r.Some? ==> lo < r.value <= hi && IsDigit(s[r.value - 1])
    decreases hi
  {
    if hi <= lo then None
    else if IsDigit(s[hi - 1]) then Some(hi)
    else LastDigitEnd(s, lo, hi - 1)
  }

  /** No digit of `s[lo..hi]` lies at or after the end `LastDigitEnd` finds. */
  lemma {:induction false} LastDigitEndAfter(s: string, lo: nat, hi: nat, m: nat)
    requires lo <= m < hi <= |s|
    requires LastDigitEnd(s, lo, hi).Some? ==> LastDigitEnd(s, lo, hi).value <= m
    ensures !IsDigit(s[m])
    decreases hi
  {
    if m < hi - 1 {
      LastDigitEndAfter(s, lo, hi - 1, m);
    }
  }

  /** The longest end when the closing character may stand at `M` or at any digit of
      `s[lo..M]`. */
  function Candidate(s: string, lo: nat, M: nat): Option<nat>
    requires lo <= M <= |s|
  {
    if M < |s| && IsFinal(s[M]) then Some(M + 1) else LastDigitEnd(s, lo, M)
  }

  lemma {:induction false} LastDigitSplit(s: string, lo: nat, mid: nat, hi: nat)
    requires lo <= mid <= hi <= |s|
    ensures LastDigitEnd(s, lo, hi) ==
              if LastDigitEnd(s, mid, hi).Some? then LastDigitEnd(s, mid, hi) else LastDigitEnd(s, lo, mid)
    decreases hi
  {
    if mid < hi && !IsDigit(s[hi - 1]) {
      LastDigitSplit(s, lo, mid, hi - 1);
    }
  }

  /** The digits after the first one, while a run is still short, leave the automaton where
      it was. */
  lemma {:induction false} RunEndDigits(s: string, a: nat, run: nat, d: nat, cap: nat)
    requires a <= |s| && d <= DigitRun(s, a, cap) && run + d <= MaxDigits
    ensures RunEnd(s, a, run) == RunEnd(s, a + d, run + d)
    decreases d
  {
    if d > 0 {
      RunEndDigits(s, a + 1, run + 1, d - 1, cap - 1);
    }
  }

  /** When the rest of the star fails after `;` and `e > 0` digits, giving back one digit
      closes the sequence on that digit. */
  lemma {:induction false} IterGivesBackDigit(s: string, k: nat, e: nat)
    requires k < |s| && 0 < e <= MaxDigits && k + 1 + e <= |s| && IsDigit(s[k + e])
    requires StarEnd(s, k + 1 + e) == None
    ensures IterTry(s, k, e) == Some(k + 1 + e)
  {
    assert StarEnd(s, k + e) == FinalAt(s, k + e);
  }

  /** The star at `;`: the first iteration takes `E` digits and stops at `k'`. */
  lemma {:induction false} StarAfterSemicolon(s: string, k: nat)
    requires k < |s| && s[k] == ';'
    ensures var k' := k + 1 + DigitRun(s, k + 1, MaxDigits);
            RunEnd(s, k, 0) == RunEnd(s, k', k' - k - 1) &&
            StarEnd(s, k) == IterTry(s, k, k' - k - 1)
  {
    var E := DigitRun(s, k + 1, MaxDigits);
    assert RunEnd(s, k, 0) == RunEnd(s, k + 1, 0);
    RunEndDigits(s, k + 1, 0, E, MaxDigits);
  }

  /** The step of the induction below: when the rest of the star at `k'` (after `;` and `e`
      digits) already agrees with the candidate, so does the star at `k`. */
  lemma {:induction false} StarStep(s: string, k: nat, e: nat, M: nat)
    requires k < |s| && s[k] == ';' && e <= MaxDigits && k + 1 + e <= M <= |s|
    requires e > 0 ==> IsDigit(s[k + e])
    requires StarEnd(s, k + 1 + e) == Candidate(s, k + 1 + e, M)
    ensures IterTry(s, k, e) == Candidate(s, k, M)
  {
    var k' := k + 1 + e;
    LastDigitSplit(s, k, k', M);
    if StarEnd(s, k') == None {
      if e > 0 {
        IterGivesBackDigit(s, k, e);
        assert LastDigitEnd(s, k, k') == Some(k');
      } else {
        assert LastDigitEnd(s, k, k') == None;
      }
    }
  }

  /** A fifth digit after `;` cannot be read by the star, and closes the sequence itself. */
  lemma {:induction false} StarOverflow(s: string, k: nat)
    requires k < |s| && s[k] == ';'
    requires var k' := k + 1 + DigitRun(s, k + 1, MaxDigits); k' < |s| && IsDigit(s[k'])
    ensures StarEnd(s, k) == Candidate(s, k, RunEnd(s, k, 0))
  {
    var k' := k + 1 + DigitRun(s, k + 1, MaxDigits);
    StarAfterSemicolon(s, k);
    assert RunEnd(s, k', MaxDigits) == k';
    assert IsFinal(s[k']);
    assert StarEnd(s, k') == Some(k' + 1);
  }

  lemma {:induction false} StarIsCandidate(s: string, k: nat)
    requires k <= |s| && !(k < |s| && IsDigit(s[k]))
    ensures StarEnd(s, k) == Candidate(s, k, RunEnd(s, k, 0))
    decreases |s| - k
  {
    if k < |s| && s[k] == ';' {
      var E := DigitRun(s, k + 1, MaxDigits);
      var k' := k + 1 + E;
      if k' < |s| && IsDigit(s[k']) {
        StarOverflow(s, k);
      } else {
        StarAfterSemicolon(s, k);
        StarIsCandidate(s, k');
        assert RunEnd(s, k', 0) == RunEnd(s, k', E);
        StarStep(s, k, E, RunEnd(s, k, 0));
      }
    } else {
      assert RunEnd(s, k, 0) == k;
    }
  }

  /** The step for the group: when the star after `d > 0` digits agrees with the candidate,
      so does the group, which gives back one digit when the star fails. */
  lemma {:induction false} GroupStep(s: string, j: nat, d: nat, M: nat)
    requires 0 < d <= MaxDigits && j + d <= M <= |s| && IsDigit(s[j + d - 1])
    requires StarEnd(s, j + d) == Candidate(s, j + d, M)
    ensures GroupTry(s, j, d) == Candidate(s, j, M)
  {
    LastDigitSplit(s, j, j + d, M);
    if StarEnd(s, j + d) == None {
      assert StarEnd(s, j + d - 1) == FinalAt(s, j + d - 1);
      assert LastDigitEnd(s, j, j + d) == Some(j + d);
    }
  }

  /** A fifth digit of the first run closes the sequence itself. */
  lemma {:induction false} GroupOverflow(s: string, j: nat)
    requires j <= |s|
    requires var d := DigitRun(s, j, MaxDigits); 0 < d && j + d < |s| && IsDigit(s[j + d])
    ensures GroupAt(s, j) == Candidate(s, j, GroupEnd(s, j))
  {
    var d := DigitRun(s, j, MaxDigits);
    RunEndDigits(s, j + 1, 1, d - 1, MaxDigits - 1);
    assert RunEnd(s, j + d, MaxDigits) == j + d;
    assert IsFinal(s[j + d]);
    assert StarEnd(s, j + d) == Some(j + d + 1);
  }

  lemma {:induction false} GroupIsCandidate(s: string, j: nat)
    requires j <= |s|
    ensures GroupAt(s, j) == Candidate(s, j, GroupEnd(s, j))
  {
    var d := DigitRun(s, j, MaxDigits);
    if d > 0 {
      if j + d < |s| && IsDigit(s[j + d]) {
        GroupOverflow(s, j);
      } else {
        var M := GroupEnd(s, j);
        RunEndDigits(s, j + 1, 1, d - 1, MaxDigits - 1);
        StarIsCandidate(s, j + d);
        assert RunEnd(s, j + d, 0) == RunEnd(s, j + d, d);
        GroupStep(s, j, d, M);
      }
    } else {
      assert GroupEnd(s, j) == j;
    }
  }

  /** A group cannot start, nor the sequence end, on a prefix character. */
  lemma {:induction false} GroupFailsOnPrefixChar(s: string, j: nat)
    requires j < |s| && IsPrefixChar(s[j])
    ensures GroupAt(s, j) == None
  {
    assert !IsDigit(s[j]) && !IsFinal(s[j]);
    assert DigitRun(s, j, MaxDigits) == 0;
  }

  /** Giving back prefix characters never helps. */
  lemma {:induction false} ShorterPrefixFails(s: string, i: nat, j: nat)
    requires i < |s| && i < j < GroupStart(s, i)
    ensures PrefixTry(s, i, j) == None
    decreases j
  {
    PrefixRunChars(s, i + 1, j);
    GroupFailsOnPrefixChar(s, j);
    PrefixTryUnfold(s, i, j);
    if j > i + 1 {
      ShorterPrefixFails(s, i, j - 1);
    }
  }

  /** So the engine's answer is the group's at the end of the prefix run. */
  lemma {:induction false} MatchIsGroupAfterPrefix(s: string, i: nat)
    requires i < |s| && IsIntro(s[i])
    ensures MatchEndAt(s, i) == GroupAt(s, GroupStart(s, i))
  {
    var j := GroupStart(s, i);
    PrefixTryUnfold(s, i, j);
    if j > i + 1 {
      ShorterPrefixFails(s, i, j - 1);
    }
  }

  lemma {:induction false} MatchIsCandidate(s: string, i: nat)
    requires i < |s| && IsIntro(s[i])
    ensures MatchEndAt(s, i) == Candidate(s, GroupStart(s, i), GroupEnd(s, GroupStart(s, i)))
  {
    MatchIsGroupAfterPrefix(s, i);
    GroupIsCandidate(s, GroupStart(s, i));
  }

  lemma {:induction false} EscapeBodyEnd(s: string, i: nat, e: nat)
    requires i < e <= |s| && IsEscape(s[i..e])
    ensures i + 2 <= e && IsFinal(s[e - 1]) && e - 1 <= BodyEnd(s, i + 1)
  {
    EscapeIff(s, i, e);
  }

  /** Every escape sequence starting at `i` closes on the character after the group, or on a
      digit of the group. */
  lemma {:induction false} EscapeCloses(s: string, i: nat, e: nat)
    requires i + 2 <= e <= |s| && IsFinal(s[e - 1]) && e - 1 <= BodyEnd(s, i + 1)
    ensures e <= GroupEnd(s, GroupStart(s, i)) + 1
    ensures e - 1 < GroupEnd(s, GroupStart(s, i)) ==> GroupStart(s, i) <= e - 1 && IsDigit(s[e - 1])
  {
    var j := GroupStart(s, i);
    BodyEndAfterPrefix(s, i + 1);
    if e - 1 < j {
      PrefixRunChars(s, i + 1, e - 1);
    } else if e - 1 < GroupEnd(s, j) {
      GroupEndChars(s, j, e - 1);
    }
  }

  /** The candidate is the furthest of those closing positions. */
  lemma {:induction false} CandidateIsFurthest(s: string, lo: nat, M: nat, e: nat)
    requires lo <= M <= |s| && lo < e <= M + 1 && e <= |s| && IsFinal(s[e - 1])
    requires e - 1 < M ==> IsDigit(s[e - 1])
    ensures Candidate(s, lo, M).Some? && e <= Candidate(s, lo, M).value
  {
    if !(M < |s| && IsFinal(s[M])) {
      var r := LastDigitEnd(s, lo, M);
      if r.None? || r.value < e {
        LastDigitEndAfter(s, lo, M, e - 1);
      }
    }
  }

  lemma {:induction false} CandidateCloses(s: string, lo: nat, M: nat)
    requires lo <= M <= |s|
    ensures var c := Candidate(s, lo, M);
            c.Some? ==> lo < c.value <= M + 1 && c.value <= |s| && IsFinal(s[c.value - 1])
  {
    if !(M < |s| && IsFinal(s[M])) && LastDigitEnd(s, lo, M).Some? {
      assert IsDigit(s[LastDigitEnd(s, lo, M).value - 1]);
    }
  }

  lemma {:induction false} EscapeByBodyEnd(s: string, i: nat, e: nat)
    requires i + 2 <= e <= |s| && IsIntro(s[i]) && IsFinal(s[e - 1]) && e - 1 <= BodyEnd(s, i + 1)
    ensures IsEscape(s[i..e])
  {
    EscapeIff(s, i, e);
  }

  /** The candidate, when there is one, closes an escape sequence. */
  lemma {:induction false} CandidateIsEscape(s: string, i: nat)
    requires i < |s| && IsIntro(s[i])
    ensures var c := Candidate(s, GroupStart(s, i), GroupEnd(s, GroupStart(s, i)));
            c.Some? ==> i < c.value <= |s| && IsEscape(s[i..c.value])
  {
    var j := GroupStart(s, i);
    var M := GroupEnd(s, j);
    var c := Candidate(s, j, M);
    if c.Some? {
      CandidateCloses(s, j, M);
      BodyEndAfterPrefix(s, i + 1);
      EscapeByBodyEnd(s, i, c.value);
    }
  }

  /** Every escape sequence starting at `i` ends within the match the engine takes there. */
  lemma {:induction false} EscapeWithinMatch(s: string, i: nat, e: nat)
    requires i < e <= |s| && IsEscape(s[i..e])
    ensures MatchEndAt(s, i).Some? && e <= MatchEndAt(s, i).value
  {
    var j := GroupStart(s, i);
    EscapeBodyEnd(s, i, e);
    EscapeCloses(s, i, e);
    CandidateIsFurthest(s, j, GroupEnd(s, j), e);
    MatchIsCandidate(s, i);
  }

  /** The match the engine takes at `i` is the longest escape sequence starting at `i`, and
      there is none when it fails. */
  lemma {:induction false} MatchIsLongest(s: string, i: nat)
    requires i <= |s|
    ensures MatchEndAt(s, i).Some? ==>
              var e := MatchEndAt(s, i).value;
              i < e <= |s| && IsEscape(s[i..e]) &&
              forall e' :: e < e' <= |s| ==> !IsEscape(s[i..e'])
    ensures MatchEndAt(s, i).None? ==> forall e' :: i < e' <= |s| ==> !IsEscape(s[i..e'])
  {
    if MatchEndAt(s, i).Some? {
      MatchIsCandidate(s, i);
      CandidateIsEscape(s, i);
    }
    forall e' | i < e' <= |s| && IsEscape(s[i..e'])
      ensures MatchEndAt(s, i).Some? && e' <= MatchEndAt(s, i).value
    {
      EscapeWithinMatch(s, i, e');
    }
  }

  lemma {:induction false} ParamsNoNewline(g: string, run: nat)
    requires Params(g, run)
    ensures NL !in g
    decreases |g|
  {
    if |g| > 0 {
      if IsDigit(g[0]) && run < MaxDigits && Params(g[1..], run + 1) {
        ParamsNoNewline(g[1..], run + 1);
      } else {
        ParamsNoNewline(g[1..], 0);
      }
      assert g == [g[0]] + g[1..];
    }
  }

  lemma {:induction false} BodyNoNewline(b: string)
    requires Body(b)
    ensures NL !in b
    decreases |b|
  {
    if |b| > 0 {
      if Group(b) {
        ParamsNoNewline(b[1..], 1);
      } else {
        BodyNoNewline(b[1..]);
      }
      assert b == [b[0]] + b[1..];
    }
  }

  /** No escape sequence holds a newline. */
  lemma {:induction false} EscapeNoNewline(t: string)
    requires IsEscape(t)
    ensures NL !in t
  {
    var inner := t[1..|t| - 1];
    BodyNoNewline(inner);
    assert t == [t[0]] + inner + [t[|t| - 1]];
  }

  /** No character of a match is a newline. */
  lemma {:induction false} MatchNoNewline(s: string, i: nat)
    requires i <= |s|
    ensures MatchEndAt(s, i).Some? ==> NL !in s[i..MatchEndAt(s, i).value]
  {
    MatchIsLongest(s, i);
    if MatchEndAt(s, i).Some? {
      EscapeNoNewline(s[i..MatchEndAt(s, i).value]);
    }
  }

  // ---------------------------------------------------------------------------------------
  // The global replace
  // ---------------------------------------------------------------------------------------

  /** The replace, resumed at `i`: a match is deleted and the scan continues after it;
      otherwise the character is kept. */
  function StripFrom(s: string, i: nat): (r: string)
    requires i <= |s|
    ensures |r| <= |s| - i
    decreases |s| - i
  {
    if i == |s| then ""
    else
      match MatchEndAt(s, i)
      case Some(e) => StripFrom(s, e)
      case None => [s[i]] + StripFrom(s, i + 1)
  }

  /** `str.replace(ansiRegex, '')` */
  function StripAnsi(s: string): (r: string)
    ensures |r| <= |s|
  {
    StripFrom(s, 0)
  }

  lemma {:induction false} StripFromIdentity(s: string, i: nat)
    requires i <= |s|
    requires forall m :: i <= m < |s| ==> !IsIntro(s[m])
    ensures StripFrom(s, i) == s[i..]
    decreases |s| - i
  {
    if i < |s| {
      StripFromIdentity(s, i + 1);
      assert s[i..] == [s[i]] + s[i + 1..];
    }
  }

  /** A string with neither ESC nor CSI is left as it is. */
  lemma {:induction false} StripIdentity(s: string)
    requires forall m :: 0 <= m < |s| ==> !IsIntro(s[m])
    ensures StripAnsi(s) == s
  {
    StripFromIdentity(s, 0);
  }

  lemma {:induction false} SkipNewlineFree(s: string, i: nat, e: nat)
    requires i <= e <= |s| && NL !in s[i..e]
    ensures multiset(s[i..])[NL] == multiset(s[e..])[NL]
  {
    assert s[i..] == s[i..e] + s[e..];
    assert multiset(s[i..]) == multiset(s[i..e]) + multiset(s[e..]);
  }

  /** One step of the replace: a match is skipped, any other character kept. */
  lemma {:induction false} StripStep(s: string, i: nat)
    requires i < |s|
    ensures MatchEndAt(s, i).Some? ==> StripFrom(s, i) == StripFrom(s, MatchEndAt(s, i).value)
    ensures MatchEndAt(s, i).None? ==> StripFrom(s, i) == [s[i]] + StripFrom(s, i + 1)
  {
  }

  /** One step of the replace, seen from outside: either a newline-free match `s[i..e]` is
      skipped, or `s[i]` is kept. */
  lemma StripCases(s: string, i: nat) returns (skip: bool, e: nat)
    requires i < |s|
    ensures skip ==> i < e <= |s| && NL !in s[i..e] && StripFrom(s, i) == StripFrom(s, e)
    ensures !skip ==> e == i + 1 && StripFrom(s, i) == [s[i]] + StripFrom(s, i + 1)
  {
    StripStep(s, i);
    MatchNoNewline(s, i);
    skip := MatchEndAt(s, i).Some?;
    e := if skip then MatchEndAt(s, i).value else i + 1;
  }

  lemma {:induction false} StripFromNewlines(s: string, i: nat)
    requires i <= |s|
    ensures multiset(StripFrom(s, i))[NL] == multiset(s[i..])[NL]
    decreases |s| - i
  {
    if i < |s| {
      var skip, e := StripCases(s, i);
      StripFromNewlines(s, e);
      if skip {
        SkipNewlineFree(s, i, e);
      } else {
        KeepNewlines(s, i, StripFrom(s, i + 1));
      }
    }
  }

  /** Keeping `s[i]` in front of a rest with as many newlines as `s[i + 1..]`. */
  lemma KeepNewlines(s: string, i: nat, rest: string)
    requires i < |s| && multiset(rest)[NL] == multiset(s[i + 1..])[NL]
    ensures multiset([s[i]] + rest)[NL] == multiset(s[i..])[NL]
  {
    assert s[i..] == [s[i]] + s[i + 1..];
  }

  /** Stripping deletes no newline: neither the prefix class, the group nor the closing class
      contains one. */
  lemma {:induction false} StripKeepsNewlines(s: string)
    ensures multiset(StripAnsi(s))[NL] == multiset(s)[NL]
  {
    StripFromNewlines(s, 0);
    assert s[0..] == s;
  }

  lemma {:induction false} StripFromLastNewline(s: string, i: nat)
    requires i < |s| && s[|s| - 1] == NL
    ensures |StripFrom(s, i)| > 0 && StripFrom(s, i)[|StripFrom(s, i)| - 1] == NL
    decreases |s| - i
  {
    StripStep(s, i);
    if MatchEndAt(s, i).Some? {
      var e := MatchEndAt(s, i).value;
      MatchNoNewline(s, i);
      assert s[i..e][e - 1 - i] == s[e - 1];
      StripFromLastNewline(s, e);
    } else if i + 1 < |s| {
      StripFromLastNewline(s, i + 1);
    }
  }

  /** A cleaned line is still a line: its newline is kept, at the end, and no other appears. */
  lemma {:induction false} StripLine(l: string)
    requires IsLine(l)
    ensures IsLine(StripAnsi(l))
  {
    StripFromLastNewline(l, 0);
    StripKeepsNewlines(l);
    LineByCount(l);
    LineByCount(StripAnsi(l));
  }

  /** Backtracking decides the length: after ESC "12;x" the group "12;" cannot be closed by
      "x", so the engine gives back digits and ends the sequence at "2". */
  lemma {:induction false} BacktrackingExample()
    ensures MatchEndAt([ESC] + "12;x", 0) == Some(3)
    ensures StripAnsi([ESC] + "12;x") == ";x"
  {
    var s := [ESC] + "12;x";
    assert PrefixRun(s, 1) == 0;
    assert DigitRun(s, 1, MaxDigits) == 2;
    assert DigitRun(s, 4, MaxDigits) == 0;
    assert StarEnd(s, 5) == None;
    assert IterTry(s, 3, 0) == None;
    assert StarEnd(s, 3) == None;
    assert StarEnd(s, 2) == Some(3);
    assert GroupTry(s, 1, 2) == Some(3);
    assert MatchEndAt(s, 0) == Some(3);
    StripFromIdentity(s, 3);
  }
}
