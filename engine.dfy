/** The typing state machine of `typingState` as values: the session record,
    one function per transition, the invariant every transition keeps, and
    the properties of the transitions. The class in module Typing performs
    the same transitions in place and is proved equal to these functions. */
module Engine {
  import opened Scoring

  datatype Option<T> = None | Some(value: T)

  /** The verdict on one character of the active line. */
  datatype CharState = Pending | Correct | Wrong

  /** A lyric line: its time window [start, end), the text shown and the
      romaji to type. */
  datatype Line = Line(start: real, end: real, text: string, romaji: string)

  /** The fields of the typing state. lineIndex -1 means no active line. */
  datatype Session = Session(
    started: bool,
    lineIndex: int,
    cursor: nat,
    states: seq<CharState>,
    correct: nat,
    wrong: nat,
    combo: nat,
    maxCombo: nat,
    finished: bool)

  /** The state after `resetAll` (and before the first session). */
  const INITIAL: Session := Session(false, -1, 0, [], 0, 0, 0, 0, false)

  /** The grace margin after the last line's end before the song finishes. */
  const FINISH_GRACE: real := 0.5

  // ---- Characters ----

  /** The length of a string as JavaScript counts it: UTF-16 code units,
      two for a character outside the Basic Multilingual Plane. */
  function CodeUnits(key: string): (n: nat)
    ensures n >= |key|
    ensures n == 0 <==> key == []
  {
    if key == [] then 0
    else (if key[0] as int >= 0x1_0000 then 2 else 1) + CodeUnits(key[1..])
  }

  /** A key whose JavaScript length is one: a single character inside the
      Basic Multilingual Plane. */
  predicate OneCodeUnit(key: string) {
    |key| == 1 && key[0] as int < 0x1_0000
  }

  /** `OneCodeUnit` is exactly the key length test of `handleKeydown`. */
  lemma OneCodeUnitIff(key: string)
    ensures CodeUnits(key) == 1 <==> OneCodeUnit(key)
  {
    if key != [] {
      assert CodeUnits(key) == (if key[0] as int >= 0x1_0000 then 2 else 1) + CodeUnits(key[1..]);
    }
  }

  /** Typable characters: ASCII letters and digits, in either case. */
  predicate IsTypable(c: char) {
    'a' <= c <= 'z' || 'A' <= c <= 'Z' || '0' <= c <= '9'
  }

  /** ASCII lower-casing. */
  function Lower(c: char): (l: char)
    ensures IsTypable(l) <==> IsTypable(c)
    ensures !('A' <= l <= 'Z')
  {
    if 'A' <= c <= 'Z' then (c as int + 32) as char else c
  }

  /** ASCII lower-casing of a whole string. */
  function LowerAll(s: string): (l: string)
    ensures |l| == |s| && forall i :: 0 <= i < |s| ==> l[i] == Lower(s[i])
  {
    if s == [] then [] else [Lower(s[0])] + LowerAll(s[1..])
  }

  /** Lower-casing does not move the skip: it keeps typability. */
  lemma SkipLower(r: string, k: nat)
    ensures SkipFrom(LowerAll(r), k) == SkipFrom(r, k)
  {
    SkipSameTypability(r, LowerAll(r), k);
  }

  /** Any string that agrees with r up to case is skipped the same way. */
  lemma {:induction false} SkipSameTypability(r: string, l: string, k: nat)
    requires |l| == |r| && forall i :: 0 <= i < |r| ==> l[i] == Lower(r[i])
    ensures SkipFrom(l, k) == SkipFrom(r, k)
    decreases |r| - k
  {
    if k < |r| && !IsTypable(r[k]) {
      SkipSameTypability(r, l, k + 1);
    }
  }

  /** Where `skipNonTypable` leaves a cursor starting at k: the first typable
      index at or after k, or the length when there is none. */
  function SkipFrom(r: string, k: nat): (j: nat)
    ensures k <= |r| ==> k <= j <= |r|
    ensures k > |r| ==> j == k
    ensures forall m :: k <= m < j && m < |r| ==> !IsTypable(r[m])
    ensures j < |r| ==> IsTypable(r[j])
    decreases |r| - k
  {
    if k < |r| && !IsTypable(r[k]) then SkipFrom(r, k + 1) else k
  }

  /** The typable characters of r from index k on, in order. */
  function TypableFrom(r: string, k: nat): seq<char>
    decreases |r| - k
  {
    if k >= |r| then []
    else (if IsTypable(r[k]) then [r[k]] else []) + TypableFrom(r, k + 1)
  }

  // ---- The invariant ----

  predicate Active(lyrics: seq<Line>, s: Session) {
    0 <= s.lineIndex < |lyrics|
  }

  /** The per-line invariant: one verdict per romaji character, the cursor
      rests on a typable character or at the end, and a verdict is still
      Pending exactly at the non-typable characters and at or after the cursor. */
  ghost predicate LineInv(r: string, cursor: nat, states: seq<CharState>) {
    |states| == |r| && cursor <= |r| && (cursor < |r| ==> IsTypable(r[cursor])) &&
    forall j :: 0 <= j < |r| ==> (states[j] == Pending <==> (cursor <= j || !IsTypable(r[j])))
  }

  /** The active line has one verdict per romaji character and the cursor
      lies within it. */
  predicate Shaped(lyrics: seq<Line>, s: Session) {
    Active(lyrics, s) ==>
      |s.states| == |lyrics[s.lineIndex].romaji| && s.cursor <= |lyrics[s.lineIndex].romaji|
  }

  ghost predicate Inv(lyrics: seq<Line>, s: Session) {
    s.combo <= s.maxCombo &&
    if Active(lyrics, s) then LineInv(lyrics[s.lineIndex].romaji, s.cursor, s.states)
    else s.states == [] && s.cursor == 0
  }

  lemma InitialInv(lyrics: seq<Line>)
    ensures Inv(lyrics, INITIAL)
  {
  }

  // ---- resetLine ----

  function AllPending(n: nat): (st: seq<CharState>)
    ensures |st| == n && forall j :: 0 <= j < n ==> st[j] == Pending
  {
    seq(n, _ => Pending)
  }

  /** `resetLine(i)`: make line i the active line with fresh verdicts. */
  function LineReset(lyrics: seq<Line>, s: Session, i: int): Session {
    if 0 <= i < |lyrics| then
      s.(lineIndex := i, cursor := SkipFrom(lyrics[i].romaji, 0), states := AllPending(|lyrics[i].romaji|))
    else s.(lineIndex := i, cursor := 0, states := [])
  }

  /** For a valid index: one Pending verdict per romaji character and the
      cursor on the first typable character, or at the length if there is
      none; otherwise no verdicts. The counters are untouched either way. */
  lemma LineResetShape(lyrics: seq<Line>, s: Session, i: int)
    requires Inv(lyrics, s)
    ensures var s' := LineReset(lyrics, s, i);
      s'.lineIndex == i && Inv(lyrics, s') &&
      s'.correct == s.correct && s'.wrong == s.wrong && s'.combo == s.combo &&
      s'.maxCombo == s.maxCombo && s'.started == s.started && s'.finished == s.finished &&
      (0 <= i < |lyrics| ==>
        var r := lyrics[i].romaji;
        |s'.states| == |r| && (forall j :: 0 <= j < |r| ==> s'.states[j] == Pending) &&
        s'.cursor <= |r| && (forall j :: 0 <= j < s'.cursor ==> !IsTypable(r[j])) &&
        (s'.cursor < |r| ==> IsTypable(r[s'.cursor]))) &&
      (!(0 <= i < |lyrics|) ==> s'.states == [] && s'.cursor == 0)
  {
  }

  // ---- markTimeoutMisses ----

  /** Whether position j of a line is turned into a timeout miss. */
  predicate Missable(r: string, states: seq<CharState>, j: nat)
    requires j < |r| && j < |states|
  {
    IsTypable(r[j]) && states[j] == Pending
  }

  /** The verdicts after marking every missable position in [lo, hi) Wrong. */
  function Misses(r: string, states: seq<CharState>, lo: nat, hi: nat): (m: seq<CharState>)
    requires |states| == |r| && hi <= |r|
    ensures |m| == |states|
    ensures forall j :: 0 <= j < |states| ==>
      m[j] == (if lo <= j < hi && Missable(r, states, j) then Wrong else states[j])
    decreases hi
  {
    if hi <= lo then states
    else
      var p := Misses(r, states, lo, hi - 1);
      if Missable(r, states, hi - 1) then p[hi - 1 := Wrong] else p
  }

  /** The number of missable positions in [lo, hi). */
  function MissCount(r: string, states: seq<CharState>, lo: nat, hi: nat): nat
    requires |states| == |r| && hi <= |r|
    decreases hi
  {
    if hi <= lo then 0
    else MissCount(r, states, lo, hi - 1) + (if Missable(r, states, hi - 1) then 1 else 0)
  }

  /** The timeout applied to positions [cursor, hi) only: the state of
      `markTimeoutMisses` part way through its loop. */
  function MissesUpTo(r: string, s: Session, hi: nat): Session
    requires |s.states| == |r| && hi <= |r|
  {
    var n := MissCount(r, s.states, s.cursor, hi);
    s.(states := Misses(r, s.states, s.cursor, hi),
       wrong := s.wrong + n,
       combo := if n > 0 then 0 else s.combo)
  }

  /** One more iteration of the timeout loop: a typable character still
      Pending at position hi becomes Wrong and breaks the combo. */
  lemma MissesUpToStep(r: string, s: Session, hi: nat)
    requires |s.states| == |r| && s.cursor <= hi < |r|
    ensures var p := MissesUpTo(r, s, hi);
      MissesUpTo(r, s, hi + 1) ==
        if IsTypable(r[hi]) && p.states[hi] == Pending
        then p.(states := p.states[hi := Wrong], wrong := p.wrong + 1, combo := 0)
        else p
  {
  }

  /** `markTimeoutMisses`: every still-Pending typable character at or after
      the cursor becomes Wrong and counts as a wrong key; the combo is broken
      if any was marked; the cursor goes to the end of the line. */
  function TimeoutMiss(lyrics: seq<Line>, s: Session): Session
    requires Shaped(lyrics, s)
  {
    if !Active(lyrics, s) then s
    else
      var r := lyrics[s.lineIndex].romaji;
      var n := MissCount(r, s.states, s.cursor, |r|);
      s.(states := Misses(r, s.states, s.cursor, |r|),
         wrong := s.wrong + n,
         combo := if n > 0 then 0 else s.combo,
         cursor := |r|)
  }

  /** When every position from lo on is Pending, the missable positions of
      [lo, hi) are exactly its typable characters. */
  lemma {:induction false} MissCountIsTypableCount(r: string, states: seq<CharState>, lo: nat, hi: nat)
    requires |states| == |r| && lo <= hi <= |r|
    requires forall j :: lo <= j < |r| ==> states[j] == Pending
    ensures MissCount(r, states, lo, hi) + |TypableFrom(r, hi)| == |TypableFrom(r, lo)|
    decreases hi - lo
  {
    if hi > lo {
      MissCountIsTypableCount(r, states, lo, hi - 1);
    }
  }

  /** The timeout: on an active line, exactly the typable characters from
      the cursor on become Wrong and are added to the wrong keys; nothing
      else changes, and the invariant is kept. */
  lemma TimeoutMissEffect(lyrics: seq<Line>, s: Session)
    requires Inv(lyrics, s) && Active(lyrics, s)
    ensures var s' := TimeoutMiss(lyrics, s);
      var r := lyrics[s.lineIndex].romaji;
      var n := |TypableFrom(r, s.cursor)|;
      Inv(lyrics, s') && s'.lineIndex == s.lineIndex && s'.cursor == |r| &&
      s'.wrong == s.wrong + n && s'.correct == s.correct && s'.maxCombo == s.maxCombo &&
      s'.combo == (if n > 0 then 0 else s.combo) &&
      |s'.states| == |r| &&
      (forall j :: 0 <= j < |r| ==>
        s'.states[j] == (if s.cursor <= j && IsTypable(r[j]) then Wrong else s.states[j]))
  {
    var r := lyrics[s.lineIndex].romaji;
    MissCountIsTypableCount(r, s.states, s.cursor, |r|);
  }

  lemma TimeoutMissInv(lyrics: seq<Line>, s: Session)
    requires Inv(lyrics, s)
    ensures Inv(lyrics, TimeoutMiss(lyrics, s))
  {
    if Active(lyrics, s) { TimeoutMissEffect(lyrics, s); }
  }

  // ---- tryAlias ----

  /** The spelling aliases: an alternative romanization of the same sound
      that the expected romaji does not spell out. */
  datatype Alias =
    | LongI    // "hi" completed by "i" alone after a correct character
    | ChiAsTi  // "t" for the "c" of a line that starts with "chi"
    | TsuAsTu  // "u" completing "tsu" after a correct "t"
    | FuAsHu   // "h" for the "f" of "fu"
    | JiAsZi   // "z" for the "j" of a line that starts with "ji"

  /** The number of positions a rule resolves. */
  function Width(a: Alias): nat {
    match a
    case LongI => 2
    case TsuAsTu => 2
    case _ => 1
  }

  /** Whether rule a applies at index i of r for the lower-cased key. */
  predicate Applies(a: Alias, r: string, i: nat, key: char, states: seq<CharState>)
    requires i < |r| && |states| == |r|
  {
    match a
    case LongI =>
      i > 0 && i + 1 < |r| && Lower(r[i]) == 'h' && Lower(r[i + 1]) == 'i' &&
      key == 'i' && states[i - 1] == Correct
    case ChiAsTi =>
      i == 0 && |r| >= 3 && Lower(r[0]) == 'c' && Lower(r[1]) == 'h' && Lower(r[2]) == 'i' &&
      key == 't'
    case TsuAsTu =>
      i > 0 && i + 1 < |r| && Lower(r[i - 1]) == 't' && Lower(r[i]) == 's' && Lower(r[i + 1]) == 'u' &&
      key == 'u' && states[i - 1] == Correct
    case FuAsHu =>
      i + 1 < |r| && Lower(r[i]) == 'f' && Lower(r[i + 1]) == 'u' && key == 'h'
    case JiAsZi =>
      i == 0 && |r| >= 2 && Lower(r[0]) == 'j' && Lower(r[1]) == 'i' && key == 'z'
  }

  /** The position of a rule in the order the rules are tried. */
  function Rank(a: Alias): nat {
    match a
    case LongI => 0
    case ChiAsTi => 1
    case TsuAsTu => 2
    case FuAsHu => 3
    case JiAsZi => 4
  }

  /** The dispatch: the rules are tried in order and the first that applies
      wins. */
  function FirstAlias(r: string, i: nat, key: char, states: seq<CharState>): (found: Option<Alias>)
    requires i < |r| && |states| == |r|
    ensures found.Some? ==> Applies(found.value, r, i, key, states)
  {
    if Applies(LongI, r, i, key, states) then Some(LongI)
    else if Applies(ChiAsTi, r, i, key, states) then Some(ChiAsTi)
    else if Applies(TsuAsTu, r, i, key, states) then Some(TsuAsTu)
    else if Applies(FuAsHu, r, i, key, states) then Some(FuAsHu)
    else if Applies(JiAsZi, r, i, key, states) then Some(JiAsZi)
    else None
  }

  /** The rule chosen is the first applicable one: no rule tried earlier
      applies, and no rule is chosen exactly when none applies. */
  lemma FirstAliasIsFirst(r: string, i: nat, key: char, states: seq<CharState>)
    requires i < |r| && |states| == |r|
    ensures var found := FirstAlias(r, i, key, states);
      (found.Some? ==> forall b :: Rank(b) < Rank(found.value) ==> !Applies(b, r, i, key, states)) &&
      (found.None? <==> forall b :: !Applies(b, r, i, key, states))
  {
    var found := FirstAlias(r, i, key, states);
    forall b | Rank(b) < (if found.Some? then Rank(found.value) else 5)
      ensures !Applies(b, r, i, key, states)
    {
    }
  }

  /** A rule that applies resolves one or two positions that lie inside the line. */
  lemma AliasWidthFits(a: Alias, r: string, i: nat, key: char, states: seq<CharState>)
    requires i < |r| && |states| == |r| && Applies(a, r, i, key, states)
    ensures 1 <= Width(a) <= 2 && i + Width(a) <= |r|
    ensures forall j :: i <= j < i + Width(a) ==> IsTypable(r[j])
  {
    assert IsTypable(Lower(r[i]));
    if Width(a) == 2 { assert IsTypable(Lower(r[i + 1])); }
  }

  // ---- handleKeydown ----

  /** The verdicts with positions [i, i + n) set to Correct. */
  function MarkCorrect(states: seq<CharState>, i: nat, n: nat): (m: seq<CharState>)
    requires i + n <= |states|
    ensures |m| == |states|
    ensures forall j :: 0 <= j < |states| ==> m[j] == (if i <= j < i + n then Correct else states[j])
    decreases n
  {
    if n == 0 then states else MarkCorrect(states[i := Correct], i + 1, n - 1)
  }

  lemma MarkCorrectOneTwo(states: seq<CharState>, i: nat)
    requires i < |states|
    ensures MarkCorrect(states, i, 1) == states[i := Correct]
    ensures i + 1 < |states| ==> MarkCorrect(states, i, 2) == states[i := Correct][i + 1 := Correct]
  {
  }

  /** Crediting n correct keys at position i: the positions become Correct,
      the counters and the combo grow by n, and maxCombo follows the combo. */
  function Credit(s: Session, i: nat, n: nat): Session
    requires i + n <= |s.states|
  {
    s.(states := MarkCorrect(s.states, i, n),
       correct := s.correct + n,
       combo := s.combo + n,
       maxCombo := Max(s.maxCombo, s.combo + n))
  }

  /** `handleKeydown` for a key whose `key` string is given. */
  function Keystroke(lyrics: seq<Line>, s: Session, key: string): Session
    requires Inv(lyrics, s)
  {
    if !s.started || |lyrics| == 0 || !Active(lyrics, s) || !OneCodeUnit(key) then s
    else
      var r := lyrics[s.lineIndex].romaji;
      var c := SkipFrom(r, s.cursor);
      if c >= |r| then s.(cursor := c)
      else Judge(r, s, c, Lower(key[0]))
  }

  /** `tryAlias` on a session: the first rule that applies credits its
      positions and moves the cursor past them; with no rule nothing
      changes. The flag says whether a rule applied. */
  function AliasStep(r: string, s: Session, i: nat, k: char): (bool, Session)
    requires i < |r| && |s.states| == |r|
  {
    match FirstAlias(r, i, k, s.states)
    case Some(a) =>
      AliasWidthFits(a, r, i, k, s.states);
      (true, Credit(s, i, Width(a)).(cursor := i + Width(a)))
    case None => (false, s)
  }

  /** A rule only turns the one or two positions it resolves into Correct,
      adds their number to the correct count and the combo, lets maxCombo
      follow the combo and moves the cursor by the same number; the wrong
      count, the line and the flags stay. Without a rule nothing changes. */
  lemma AliasStepEffect(r: string, s: Session, i: nat, k: char)
    requires i < |r| && |s.states| == |r|
    ensures var (hit, s') := AliasStep(r, s, i, k);
      (hit <==> FirstAlias(r, i, k, s.states).Some?) &&
      (!hit ==> s' == s) &&
      (hit ==> var w := Width(FirstAlias(r, i, k, s.states).value);
        1 <= w <= 2 && i + w <= |r| && |s'.states| == |r| &&
        (forall j :: 0 <= j < |r| ==> s'.states[j] == (if i <= j < i + w then Correct else s.states[j])) &&
        s'.correct == s.correct + w && s'.combo == s.combo + w &&
        s'.maxCombo == Max(s.maxCombo, s.combo + w) && s'.cursor == i + w &&
        s'.wrong == s.wrong && s'.lineIndex == s.lineIndex &&
        s'.started == s.started && s'.finished == s.finished)
  {
    match FirstAlias(r, i, k, s.states)
    case Some(a) => AliasWidthFits(a, r, i, k, s.states);
    case None =>
  }

  /** The verdict on the lower-cased key k at position c of romaji r: an
      exact match, else the first alias that applies, else a miss; then
      the cursor skips separators. */
  function Judge(r: string, s: Session, c: nat, k: char): Session
    requires c < |r| && |s.states| == |r|
  {
    var expected := Lower(r[c]);
    var next := SkipFrom(r, c + 1);
    if k == expected then Credit(s, c, 1).(cursor := next)
    else
      var (hit, s1) := AliasStep(r, s, c, k);
      if hit then s1.(cursor := SkipFrom(r, s1.cursor))
      else if IsTypable(expected) then
        s.(states := s.states[c := Wrong], wrong := s.wrong + 1, combo := 0, cursor := next)
      else s.(cursor := next)
  }

  /** The three outcomes of Judge, one per case. */
  lemma JudgeCases(r: string, s: Session, c: nat, k: char)
    requires c < |r| && |s.states| == |r|
    ensures k == Lower(r[c]) ==> Judge(r, s, c, k) == Credit(s, c, 1).(cursor := SkipFrom(r, c + 1))
    ensures k != Lower(r[c]) && FirstAlias(r, c, k, s.states).Some? ==>
      (var a := FirstAlias(r, c, k, s.states).value;
       AliasWidthFits(a, r, c, k, s.states);
       Judge(r, s, c, k) == Credit(s, c, Width(a)).(cursor := SkipFrom(r, c + Width(a))))
    ensures k != Lower(r[c]) && FirstAlias(r, c, k, s.states).None? ==>
      Judge(r, s, c, k) ==
        (if IsTypable(Lower(r[c]))
         then s.(states := s.states[c := Wrong], wrong := s.wrong + 1, combo := 0, cursor := SkipFrom(r, c + 1))
         else s.(cursor := SkipFrom(r, c + 1)))
  {
  }

  /** While the invariant holds the cursor already rests where the skip
      would leave it. */
  lemma SkipAtRest(lyrics: seq<Line>, s: Session)
    requires Inv(lyrics, s) && Active(lyrics, s)
    ensures SkipFrom(lyrics[s.lineIndex].romaji, s.cursor) == s.cursor
  {
  }

  /** A key is ignored when the session has not started, when no line is
      active, when the key is not one UTF-16 code unit long, or when the
      line is done. */
  lemma KeystrokeIgnored(lyrics: seq<Line>, s: Session, key: string)
    requires Inv(lyrics, s)
    requires !s.started || !Active(lyrics, s) || !OneCodeUnit(key) ||
             s.cursor == |lyrics[s.lineIndex].romaji|
    ensures Keystroke(lyrics, s, key) == s
  {
  }

  /** The cases in which a key is scored. */
  ghost predicate Scored(lyrics: seq<Line>, s: Session, key: string) {
    s.started && Active(lyrics, s) && OneCodeUnit(key) && s.cursor < |lyrics[s.lineIndex].romaji|
  }

  /** A scored key is judged at the cursor. */
  lemma KeystrokeJudges(lyrics: seq<Line>, s: Session, key: string)
    requires Inv(lyrics, s) && Scored(lyrics, s, key)
    ensures Keystroke(lyrics, s, key) == Judge(lyrics[s.lineIndex].romaji, s, s.cursor, Lower(key[0]))
  {
    SkipAtRest(lyrics, s);
  }

  /** An exact case-insensitive match. */
  lemma JudgeMatch(r: string, s: Session, c: nat, k: char)
    requires s.combo <= s.maxCombo && LineInv(r, c, s.states) && c < |r| && k == Lower(r[c])
    ensures var s' := Judge(r, s, c, k);
      s'.states == s.states[c := Correct] &&
      s'.correct == s.correct + 1 && s'.combo == s.combo + 1 &&
      s'.maxCombo == Max(s.maxCombo, s.combo + 1) && s'.wrong == s.wrong &&
      s'.cursor == SkipFrom(r, c + 1) && s'.lineIndex == s.lineIndex &&
      s'.combo <= s'.maxCombo && LineInv(r, s'.cursor, s'.states)
  {
    assert MarkCorrect(s.states, c, 1) == s.states[c := Correct];
    var s' := Judge(r, s, c, k);
    KeyStepLineInv(r, s.states, s'.states, c, 1, s'.cursor);
  }

  /** An alias: the rule's positions become Correct, the counters and the
      combo grow by its width, and the cursor moves past them. */
  lemma JudgeAlias(r: string, s: Session, c: nat, k: char, a: Alias)
    requires s.combo <= s.maxCombo && LineInv(r, c, s.states) && c < |r| && k != Lower(r[c])
    requires FirstAlias(r, c, k, s.states) == Some(a)
    ensures c + Width(a) <= |r|
    ensures Judge(r, s, c, k) == Credit(s, c, Width(a)).(cursor := SkipFrom(r, c + Width(a)))
    ensures var s' := Credit(s, c, Width(a)).(cursor := SkipFrom(r, c + Width(a)));
      s'.combo <= s'.maxCombo && LineInv(r, s'.cursor, s'.states)
  {
    AliasWidthFits(a, r, c, k, s.states);
    JudgeCases(r, s, c, k);
    CreditLineInv(r, s, c, Width(a));
  }

  /** Crediting n typable positions at the cursor and skipping past them
      keeps the per-line invariant and the combo bound. */
  lemma CreditLineInv(r: string, s: Session, c: nat, n: nat)
    requires s.combo <= s.maxCombo && LineInv(r, c, s.states) && 1 <= n && c + n <= |r|
    requires forall j :: c <= j < c + n ==> IsTypable(r[j])
    ensures var s' := Credit(s, c, n).(cursor := SkipFrom(r, c + n));
      s'.combo <= s'.maxCombo && LineInv(r, s'.cursor, s'.states)
  {
    KeyStepLineInv(r, s.states, MarkCorrect(s.states, c, n), c, n, SkipFrom(r, c + n));
  }

  /** A true mismatch: the expected character becomes Wrong, the wrong count
      grows by one, the combo is broken, and the cursor still moves on: a
      mismatch consumes its position. */
  lemma JudgeMismatch(r: string, s: Session, c: nat, k: char)
    requires s.combo <= s.maxCombo && LineInv(r, c, s.states) && c < |r| && k != Lower(r[c])
    requires FirstAlias(r, c, k, s.states) == None
    ensures var s' := Judge(r, s, c, k);
      s'.states == s.states[c := Wrong] &&
      s'.wrong == s.wrong + 1 && s'.combo == 0 &&
      s'.correct == s.correct && s'.maxCombo == s.maxCombo &&
      s'.cursor == SkipFrom(r, c + 1) && s'.lineIndex == s.lineIndex &&
      s'.combo <= s'.maxCombo && LineInv(r, s'.cursor, s'.states)
  {
    assert IsTypable(Lower(r[c]));
    var s' := Judge(r, s, c, k);
    KeyStepLineInv(r, s.states, s'.states, c, 1, s'.cursor);
  }

  /** Every key keeps the invariant, never lowers the correct and wrong
      counts or maxCombo, never moves the cursor back, and moves it forward
      whenever the key is scored. */
  lemma KeystrokeProgress(lyrics: seq<Line>, s: Session, key: string)
    requires Inv(lyrics, s)
    ensures var s' := Keystroke(lyrics, s, key);
      Inv(lyrics, s') &&
      s'.correct >= s.correct && s'.wrong >= s.wrong && s'.maxCombo >= s.maxCombo &&
      s'.lineIndex == s.lineIndex && s'.started == s.started && s'.finished == s.finished &&
      s'.cursor >= s.cursor &&
      (Scored(lyrics, s, key) ==> (s'.cursor > s.cursor &&
        s'.correct + s'.wrong > s.correct + s.wrong))
  {
    if Scored(lyrics, s, key) {
      var r := lyrics[s.lineIndex].romaji;
      var k := Lower(key[0]);
      KeystrokeJudges(lyrics, s, key);
      if k == Lower(r[s.cursor]) {
        JudgeMatch(r, s, s.cursor, k);
      } else {
        match FirstAlias(r, s.cursor, k, s.states)
        case Some(a) => JudgeAlias(r, s, s.cursor, k, a);
        case None => JudgeMismatch(r, s, s.cursor, k);
      }
    } else {
      KeystrokeIgnored(lyrics, s, key);
    }
  }

  /** Judging positions [c, c + n) (all typable) and moving the cursor to
      the next typable character after them keeps the per-line invariant. */
  lemma KeyStepLineInv(r: string, states: seq<CharState>, m: seq<CharState>, c: nat, n: nat, next: nat)
    requires LineInv(r, c, states) && c + n <= |r| && n >= 1
    requires forall j :: c <= j < c + n ==> IsTypable(r[j])
    requires |m| == |states|
    requires forall j :: 0 <= j < |m| ==> m[j] == (if c <= j < c + n then m[j] else states[j])
    requires forall j :: c <= j < c + n ==> m[j] != Pending
    requires next == SkipFrom(r, c + n)
    ensures LineInv(r, next, m) && next > c
  {
  }


  // ---- Sequences of keys ----

  /** One single-character key string per character. */
  function Keys(t: seq<char>): (keys: seq<string>)
    ensures |keys| == |t| && forall i :: 0 <= i < |t| ==> keys[i] == [t[i]]
  {
    seq(|t|, i requires 0 <= i < |t| => [t[i]])
  }

  /** The state after pressing the keys in order. */
  function TypeKeys(lyrics: seq<Line>, s: Session, keys: seq<string>): (s': Session)
    requires Inv(lyrics, s)
    ensures Inv(lyrics, s')
    decreases |keys|
  {
    if keys == [] then s
    else
      KeystrokeProgress(lyrics, s, keys[0]);
      TypeKeys(lyrics, Keystroke(lyrics, s, keys[0]), keys[1..])
  }

  /** Skipping non-typable characters leaves the typable rest unchanged. */
  lemma {:induction false} TypableFromSkip(r: string, k: nat)
    requires k <= |r|
    ensures TypableFrom(r, SkipFrom(r, k)) == TypableFrom(r, k)
    decreases |r| - k
  {
    if k < |r| && !IsTypable(r[k]) {
      TypableFromSkip(r, k + 1);
    }
  }

  /** Pressing the character at the cursor: the first step of typing the rest
      of the line. */
  lemma TypeFirstKey(lyrics: seq<Line>, s: Session) returns (s1: Session)
    requires Inv(lyrics, s) && s.started && Active(lyrics, s)
    requires s.cursor < |lyrics[s.lineIndex].romaji|
    ensures var r := lyrics[s.lineIndex].romaji;
      Inv(lyrics, s1) && s1.started && s1.lineIndex == s.lineIndex &&
      s1.cursor == SkipFrom(r, s.cursor + 1) &&
      s1.correct == s.correct + 1 && s1.wrong == s.wrong && s1.combo == s.combo + 1 &&
      s1.maxCombo == Max(s.maxCombo, s.combo + 1) && s1.states == s.states[s.cursor := Correct] &&
      |TypableFrom(r, s.cursor)| == |TypableFrom(r, s1.cursor)| + 1 &&
      TypeKeys(lyrics, s, Keys(TypableFrom(r, s.cursor))) ==
        TypeKeys(lyrics, s1, Keys(TypableFrom(r, s1.cursor)))
  {
    var r := lyrics[s.lineIndex].romaji;
    var rest := TypableFrom(r, s.cursor);
    var key := [r[s.cursor]];
    assert rest == [r[s.cursor]] + TypableFrom(r, s.cursor + 1);
    var keys := Keys(rest);
    assert keys[0] == key;
    KeystrokeJudges(lyrics, s, key);
    JudgeMatch(r, s, s.cursor, Lower(r[s.cursor]));
    s1 := Keystroke(lyrics, s, key);
    KeystrokeProgress(lyrics, s, key);
    TypableFromSkip(r, s.cursor + 1);
    assert keys[1..] == Keys(TypableFrom(r, s1.cursor));
  }

  /** s' is s with every typable character from the cursor on credited as
      Correct: the correct count and the combo grow by their number, maxCombo
      follows the combo, nothing is wrong, and the cursor is at the end. */
  ghost predicate CreditedRest(r: string, s: Session, s': Session) {
    var n := |TypableFrom(r, s.cursor)|;
    s'.cursor == |r| && s'.lineIndex == s.lineIndex &&
    s'.correct == s.correct + n && s'.wrong == s.wrong &&
    s'.combo == s.combo + n && s'.maxCombo == Max(s.maxCombo, s.combo + n) &&
    |s.states| == |r| && |s'.states| == |r| &&
    forall j :: 0 <= j < |r| ==>
      s'.states[j] == (if s.cursor <= j && IsTypable(r[j]) then Correct else s.states[j])
  }

  lemma CreditedRestStep(r: string, s: Session, s1: Session, s': Session)
    requires s.cursor < |r| && |s.states| == |r|
    requires s1.cursor == SkipFrom(r, s.cursor + 1) && s1.lineIndex == s.lineIndex &&
      s1.correct == s.correct + 1 && s1.wrong == s.wrong && s1.combo == s.combo + 1 &&
      s1.maxCombo == Max(s.maxCombo, s.combo + 1) && s1.states == s.states[s.cursor := Correct] &&
      |TypableFrom(r, s.cursor)| == |TypableFrom(r, s1.cursor)| + 1
    requires CreditedRest(r, s1, s')
    requires IsTypable(r[s.cursor])
    ensures CreditedRest(r, s, s')
  {
    forall j | 0 <= j < |r|
      ensures s'.states[j] == (if s.cursor <= j && IsTypable(r[j]) then Correct else s.states[j])
    {
      if s.cursor < j < s1.cursor {
        assert !IsTypable(r[j]);
      }
    }
  }

  /** Typing exactly the typable characters left on the active line credits
      every one of them (CreditedRest). */
  lemma {:induction false} TypingTheRestOfTheLine(lyrics: seq<Line>, s: Session)
    requires Inv(lyrics, s) && s.started && Active(lyrics, s)
    ensures CreditedRest(lyrics[s.lineIndex].romaji, s,
      TypeKeys(lyrics, s, Keys(TypableFrom(lyrics[s.lineIndex].romaji, s.cursor))))
    decreases |lyrics[s.lineIndex].romaji| - s.cursor
  {
    var r := lyrics[s.lineIndex].romaji;
    if s.cursor < |r| {
      var s1 := TypeFirstKey(lyrics, s);
      TypingTheRestOfTheLine(lyrics, s1);
      CreditedRestStep(r, s, s1, TypeKeys(lyrics, s1, Keys(TypableFrom(r, s1.cursor))));
    } else {
      assert Keys(TypableFrom(r, s.cursor)) == [];
    }
  }

  // ---- updateByTime ----

  predicate Covers(l: Line, t: real) {
    l.start <= t < l.end
  }

  /** The first line from index k on whose window contains t, or -1. */
  function FindLineFrom(lyrics: seq<Line>, t: real, k: nat): (target: int)
    requires k <= |lyrics|
    ensures target == -1 || k <= target < |lyrics|
    ensures target >= 0 ==> (Covers(lyrics[target], t) &&
      forall j :: k <= j < target ==> !Covers(lyrics[j], t))
    ensures target == -1 ==> forall j :: k <= j < |lyrics| ==> !Covers(lyrics[j], t)
    decreases |lyrics| - k
  {
    if k == |lyrics| then -1
    else if Covers(lyrics[k], t) then k
    else FindLineFrom(lyrics, t, k + 1)
  }

  /** The target line for time t: the first in list order whose window
      [start, end) contains t, or -1 when none does. */
  function TargetLine(lyrics: seq<Line>, t: real): (target: int)
    ensures -1 <= target < |lyrics|
    ensures target >= 0 ==> (Covers(lyrics[target], t) &&
      forall j :: 0 <= j < target ==> !Covers(lyrics[j], t))
    ensures target == -1 ==> forall j :: 0 <= j < |lyrics| ==> !Covers(lyrics[j], t)
  {
    FindLineFrom(lyrics, t, 0)
  }

  /** `updateByTime(t)`. */
  function TimeUpdate(lyrics: seq<Line>, s: Session, t: real): Session
    requires Inv(lyrics, s)
  {
    if |lyrics| == 0 then s.(lineIndex := -1)
    else
      var target := TargetLine(lyrics, t);
      if target == s.lineIndex then s
      else
        TimeoutMissInv(lyrics, s);
        var s1 := if s.lineIndex != -1 && target != -1 then TimeoutMiss(lyrics, s) else s;
        LineReset(lyrics, s1, target)
  }

  /** A time update keeps the invariant, lands on the target line, and never
      changes the correct count, maxCombo or the started and finished flags. */
  lemma TimeUpdateInv(lyrics: seq<Line>, s: Session, t: real)
    requires Inv(lyrics, s)
    ensures var s' := TimeUpdate(lyrics, s, t);
      Inv(lyrics, s') && s'.lineIndex == TargetLine(lyrics, t) &&
      s'.correct == s.correct && s'.maxCombo == s.maxCombo && s'.wrong >= s.wrong &&
      s'.started == s.started && s'.finished == s.finished
  {
    if |lyrics| > 0 {
      var target := TargetLine(lyrics, t);
      if target != s.lineIndex {
        TimeoutMissInv(lyrics, s);
        var s1 := if s.lineIndex != -1 && target != -1 then TimeoutMiss(lyrics, s) else s;
        LineResetShape(lyrics, s1, target);
      }
    }
  }

  /** Staying on the same line changes nothing. */
  lemma TimeUpdateSameLine(lyrics: seq<Line>, s: Session, t: real)
    requires Inv(lyrics, s) && |lyrics| > 0 && TargetLine(lyrics, t) == s.lineIndex
    ensures TimeUpdate(lyrics, s, t) == s
  {
  }

  /** Moving into or out of "no line" carries no penalty. */
  lemma TimeUpdateNoPenalty(lyrics: seq<Line>, s: Session, t: real)
    requires Inv(lyrics, s)
    requires s.lineIndex == -1 || TargetLine(lyrics, t) == -1
    ensures var s' := TimeUpdate(lyrics, s, t);
      s'.wrong == s.wrong && s'.combo == s.combo && s'.correct == s.correct
  {
  }

  /** Switching directly from one line to another first turns the typable
      characters left on the old line into wrong keys, then installs the new
      line with fresh verdicts. */
  lemma TimeUpdateSwitch(lyrics: seq<Line>, s: Session, t: real)
    requires Inv(lyrics, s) && Active(lyrics, s)
    requires TargetLine(lyrics, t) != -1 && TargetLine(lyrics, t) != s.lineIndex
    ensures var s' := TimeUpdate(lyrics, s, t);
      var n := |TypableFrom(lyrics[s.lineIndex].romaji, s.cursor)|;
      var target := TargetLine(lyrics, t);
      s'.lineIndex == target &&
      s'.wrong == s.wrong + n && s'.combo == (if n > 0 then 0 else s.combo) &&
      s'.correct == s.correct &&
      s'.states == AllPending(|lyrics[target].romaji|) &&
      s'.cursor == SkipFrom(lyrics[target].romaji, 0)
  {
    TimeoutMissEffect(lyrics, s);
  }

  // ---- start, resetAll, getStats and the finish check ----

  /** `start`: only the started flag changes. */
  function Begin(s: Session): Session {
    s.(started := true)
  }

  /** What `getStats` reports, without the speed (which needs a wall clock). */
  datatype Stats = Stats(correct: nat, wrong: nat, accuracy: real, maxCombo: nat)

  function StatsOf(s: Session): (st: Stats)
    ensures st.correct == s.correct && st.wrong == s.wrong && st.maxCombo == s.maxCombo
    ensures 0.0 <= st.accuracy <= 100.0
    ensures s.correct + s.wrong == 0 ==> st.accuracy == 0.0
  {
    Stats(s.correct, s.wrong, Accuracy(s.correct, s.wrong), s.maxCombo)
  }

  /** The result shown when the song finishes. */
  datatype Summary = Summary(score: nat, correct: nat, wrong: nat, accuracy: real, maxCombo: nat)

  function SummaryOf(s: Session): Summary {
    Summary(Score(s.correct, s.wrong, s.maxCombo), s.correct, s.wrong, Accuracy(s.correct, s.wrong), s.maxCombo)
  }

  /** Whether the finish check fires at time t. */
  predicate FinishDue(lyrics: seq<Line>, s: Session, t: real) {
    !s.finished && |lyrics| > 0 && t > lyrics[|lyrics| - 1].end + FINISH_GRACE
  }

  /** One poll of `updateFromPlayer` at time t: the time update, then the
      one-shot finish check with its summary. */
  function Poll(lyrics: seq<Line>, s: Session, t: real): (Session, Option<Summary>)
    requires Inv(lyrics, s)
  {
    var s1 := TimeUpdate(lyrics, s, t);
    if FinishDue(lyrics, s1, t) then (s1.(finished := true), Some(SummaryOf(s1)))
    else (s1, None)
  }

  /** The summary is produced exactly when the song was not finished yet
      and t is past the last line's end plus the grace margin, and it then
      carries the clamped score of the counters. */
  lemma PollFinish(lyrics: seq<Line>, s: Session, t: real)
    requires Inv(lyrics, s)
    ensures var (s', report) := Poll(lyrics, s, t);
      Inv(lyrics, s') &&
      (report.Some? <==> !s.finished && |lyrics| > 0 && t > lyrics[|lyrics| - 1].end + FINISH_GRACE) &&
      (report.Some? ==> (s'.finished && report.value.score == Score(s'.correct, s'.wrong, s'.maxCombo) &&
        report.value.correct == s'.correct && report.value.wrong == s'.wrong &&
        report.value.maxCombo == s'.maxCombo &&
        report.value.accuracy == Accuracy(s'.correct, s'.wrong) &&
        0.0 <= report.value.accuracy <= 100.0)) &&
      (s.finished ==> s'.finished)
  {
    TimeUpdateInv(lyrics, s, t);
  }

  // ---- Runs of events ----

  /** `handleKeydown` on a keyboard event: the IME's "Process" key is
      ignored, and while a composition is in progress only a single ASCII
      letter or digit gets through. */
  function KeyEvent(lyrics: seq<Line>, s: Session, key: string, composing: bool): Session
    requires Inv(lyrics, s)
  {
    if key == "Process" || (composing && !(|key| == 1 && IsTypable(key[0]))) then s
    else Keystroke(lyrics, s, key)
  }

  /** The IME filter: the "Process" key changes nothing, any other key is
      handled as without composition exactly when it is one ASCII letter or
      digit, and a key other than that is ignored while composing. */
  lemma KeyEventFilter(lyrics: seq<Line>, s: Session, key: string, composing: bool)
    requires Inv(lyrics, s)
    ensures key == "Process" ==> KeyEvent(lyrics, s, key, composing) == s
    ensures key != "Process" && (!composing || (|key| == 1 && IsTypable(key[0]))) ==>
      KeyEvent(lyrics, s, key, composing) == Keystroke(lyrics, s, key)
    ensures composing && !(|key| == 1 && IsTypable(key[0])) ==> KeyEvent(lyrics, s, key, composing) == s
  {
  }

  /** What can happen to the session: a key, a poll of the clock, the end
      of the countdown, or a full reset. */
  datatype Event = Press(key: string, composing: bool) | Tick(t: real) | Start | ResetAll

  function Step(lyrics: seq<Line>, s: Session, e: Event): (r: (Session, Option<Summary>))
    requires Inv(lyrics, s)
    ensures Inv(lyrics, r.0)
  {
    match e
    case Press(key, composing) => KeystrokeProgress(lyrics, s, key); (KeyEvent(lyrics, s, key, composing), None)
    case Tick(t) => PollFinish(lyrics, s, t); Poll(lyrics, s, t)
    case Start => (Begin(s), None)
    case ResetAll => InitialInv(lyrics); (INITIAL, None)
  }

  /** The final state and the number of summaries shown over a run. */
  function Run(lyrics: seq<Line>, s: Session, events: seq<Event>): (Session, nat)
    requires Inv(lyrics, s)
    decreases |events|
  {
    if events == [] then (s, 0)
    else
      var (s1, report) := Step(lyrics, s, events[0]);
      var (s2, n) := Run(lyrics, s1, events[1..]);
      (s2, n + if report.Some? then 1 else 0)
  }

  predicate NoReset(events: seq<Event>) {
    forall i :: 0 <= i < |events| ==> !events[i].ResetAll?
  }

  /** Between two resets the finish summary is shown at most once, and never
      again once the song has finished. */
  lemma {:induction false} FinishAtMostOnce(lyrics: seq<Line>, s: Session, events: seq<Event>)
    requires Inv(lyrics, s) && NoReset(events)
    ensures Run(lyrics, s, events).1 <= (if s.finished then 0 else 1)
    ensures s.finished ==> Run(lyrics, s, events).0.finished
    decreases |events|
  {
    if events != [] {
      var (s1, report) := Step(lyrics, s, events[0]);
      assert NoReset(events[1..]);
      match events[0] {
        case Press(key, _) => KeystrokeProgress(lyrics, s, key);
        case Tick(t) => PollFinish(lyrics, s, t);
        case Start =>
      }
      FinishAtMostOnce(lyrics, s1, events[1..]);
    }
  }

  // ---- Worked examples ----

  /** A session typing a one-line song whose romaji is r, right after the
      line became active. */
  function Fresh(r: string): Session {
    Session(true, 0, SkipFrom(r, 0), AllPending(|r|), 0, 0, 0, 0, false)
  }

  function Song(r: string): seq<Line> {
    [Line(0.0, 2.0, "", r)]
  }

  lemma FreshInv(r: string)
    ensures Inv(Song(r), Fresh(r))
  {
  }

  /** "si" for "shi": the second key completes "hi" by the long-i alias. */
  lemma ExampleShiAsSi()
    ensures (FreshInv("shi"); TypeKeys(Song("shi"), Fresh("shi"), ["s", "i"]) ==
      Session(true, 0, 3, [Correct, Correct, Correct], 3, 0, 3, 3, false))
  {
    FreshInv("shi");
    var s1 := Keystroke(Song("shi"), Fresh("shi"), "s");
    assert s1 == Session(true, 0, 1, [Correct, Pending, Pending], 1, 0, 1, 1, false);
  }

  /** "ti" for "chi" at the start of a line. */
  lemma ExampleChiAsTi()
    ensures (FreshInv("chi"); TypeKeys(Song("chi"), Fresh("chi"), ["t", "h", "i"]) ==
      Session(true, 0, 3, [Correct, Correct, Correct], 3, 0, 3, 3, false))
  {
    FreshInv("chi");
    var s1 := Keystroke(Song("chi"), Fresh("chi"), "t");
    assert s1 == Session(true, 0, 1, [Correct, Pending, Pending], 1, 0, 1, 1, false);
    KeystrokeProgress(Song("chi"), s1, "h");
    var s2 := Keystroke(Song("chi"), s1, "h");
    assert s2 == Session(true, 0, 2, [Correct, Correct, Pending], 2, 0, 2, 2, false);
    KeystrokeProgress(Song("chi"), s2, "i");
    var s3 := Keystroke(Song("chi"), s2, "i");
    assert s3 == Session(true, 0, 3, [Correct, Correct, Correct], 3, 0, 3, 3, false);
  }

  /** The "t" alias for "chi" only applies at the start of a line: later in
      the line it is a miss. */
  lemma ExampleTiOnlyAtLineStart()
    ensures var s := Session(true, 0, 2, [Correct, Correct, Pending, Pending, Pending], 2, 0, 2, 2, false);
      (InvOfMachi(s); Keystroke(Song("machi"), s, "t") ==
        Session(true, 0, 3, [Correct, Correct, Wrong, Pending, Pending], 2, 1, 0, 2, false))
  {
    var s := Session(true, 0, 2, [Correct, Correct, Pending, Pending, Pending], 2, 0, 2, 2, false);
    InvOfMachi(s);
    KeystrokeJudges(Song("machi"), s, "t");
  }

  lemma InvOfMachi(s: Session)
    requires s == Session(true, 0, 2, [Correct, Correct, Pending, Pending, Pending], 2, 0, 2, 2, false)
    ensures Inv(Song("machi"), s)
  {
  }

  /** "tu" for "tsu": the "u" completes "su" after a correct "t". */
  lemma ExampleTsuAsTu()
    ensures (FreshInv("tsu"); TypeKeys(Song("tsu"), Fresh("tsu"), ["t", "u"]) ==
      Session(true, 0, 3, [Correct, Correct, Correct], 3, 0, 3, 3, false))
  {
    FreshInv("tsu");
    var s1 := Keystroke(Song("tsu"), Fresh("tsu"), "t");
    assert s1 == Session(true, 0, 1, [Correct, Pending, Pending], 1, 0, 1, 1, false);
    KeystrokeProgress(Song("tsu"), s1, "u");
    KeystrokeJudges(Song("tsu"), s1, "u");
    JudgeAlias("tsu", s1, 1, 'u', TsuAsTu);
    var s2 := Keystroke(Song("tsu"), s1, "u");
    assert s2 == Session(true, 0, 3, [Correct, Correct, Correct], 3, 0, 3, 3, false);
  }

  /** "hu" for "fu" and "zi" for "ji". */
  lemma ExampleHuAndZi()
    ensures (FreshInv("fu"); TypeKeys(Song("fu"), Fresh("fu"), ["h", "u"]) ==
      Session(true, 0, 2, [Correct, Correct], 2, 0, 2, 2, false))
    ensures (FreshInv("ji"); TypeKeys(Song("ji"), Fresh("ji"), ["z", "i"]) ==
      Session(true, 0, 2, [Correct, Correct], 2, 0, 2, 2, false))
  {
    FreshInv("fu");
    var s1 := Keystroke(Song("fu"), Fresh("fu"), "h");
    assert s1 == Session(true, 0, 1, [Correct, Pending], 1, 0, 1, 1, false);
    FreshInv("ji");
    var t1 := Keystroke(Song("ji"), Fresh("ji"), "z");
    assert t1 == Session(true, 0, 1, [Correct, Pending], 1, 0, 1, 1, false);
  }

  /** A miss consumes its position; separators in the romaji are skipped. */
  lemma ExampleMissAndSeparator()
    ensures (FreshInv("ka na"); TypeKeys(Song("ka na"), Fresh("ka na"), ["x", "a", "n"]) ==
      Session(true, 0, 4, [Wrong, Correct, Pending, Correct, Pending], 2, 1, 2, 2, false))
  {
    FreshInv("ka na");
    var s1 := Keystroke(Song("ka na"), Fresh("ka na"), "x");
    assert s1 == Session(true, 0, 1, [Wrong, Pending, Pending, Pending, Pending], 0, 1, 0, 0, false);
    KeystrokeProgress(Song("ka na"), s1, "a");
    var s2 := Keystroke(Song("ka na"), s1, "a");
    assert s2 == Session(true, 0, 3, [Wrong, Correct, Pending, Pending, Pending], 1, 1, 1, 1, false);
    KeystrokeProgress(Song("ka na"), s2, "n");
    var s3 := Keystroke(Song("ka na"), s2, "n");
    assert s3 == Session(true, 0, 4, [Wrong, Correct, Pending, Correct, Pending], 2, 1, 2, 2, false);
  }

  /** A key outside the Basic Multilingual Plane is two UTF-16 code units
      long, so it is ignored like any other key of length other than one. */
  lemma ExampleWideKeyIgnored()
    ensures (FreshInv("a"); Keystroke(Song("a"), Fresh("a"), "\U{1F600}") == Fresh("a"))
    ensures CodeUnits("\U{1F600}") == 2
  {
    FreshInv("a");
  }

  /** A one-line song typed without a miss: the poll after the line's end
      plus the grace margin shows one correct key, accuracy 100 and score
      10 + 2 * maxCombo = 12. */
  lemma ExampleOneKeySong()
    ensures var lyrics := Song("a");
      (InitialInv(lyrics);
       var s1 := Begin(INITIAL);
       var s2 := (TimeUpdateInv(lyrics, s1, 1.0); TimeUpdate(lyrics, s1, 1.0));
       var s3 := (KeystrokeProgress(lyrics, s2, "a"); Keystroke(lyrics, s2, "a"));
       Poll(lyrics, s3, 3.0).1 == Some(Summary(12, 1, 0, 100.0, 1)))
  {
    var lyrics := Song("a");
    InitialInv(lyrics);
    var s1 := Begin(INITIAL);
    TimeUpdateInv(lyrics, s1, 1.0);
    var s2 := TimeUpdate(lyrics, s1, 1.0);
    assert TargetLine(lyrics, 1.0) == 0;
    assert s2 == Fresh("a");
    KeystrokeProgress(lyrics, s2, "a");
    var s3 := Keystroke(lyrics, s2, "a");
    assert s3 == Session(true, 0, 1, [Correct], 1, 0, 1, 1, false);
    assert TargetLine(lyrics, 3.0) == -1;
    ScoreExamples();
  }
}
