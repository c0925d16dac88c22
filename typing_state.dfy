/** The `typingState` closure as an object: its variables are fields that
    the methods update in place, and each method is proved to perform the
    corresponding transition of module Engine. */
module Typing {
  import opened Scoring
  import opened Engine

  class TypingState {
    /** The lyric index of the selected song (read through `getLyrics`). */
    const lyrics: seq<Line>

    var started: bool
    var currentLineIndex: int
    var currentCharIndex: nat
    var charStates: seq<CharState>
    var totalCorrect: nat
    var totalWrong: nat
    var currentCombo: nat
    var maxCombo: nat
    /** The one-shot finish flag, cleared by `resetAll`. */
    var songFinished: bool

    /** The fields as an Engine session. */
    function Snapshot(): Session
      reads this
    {
      Session(started, currentLineIndex, currentCharIndex, charStates,
        totalCorrect, totalWrong, currentCombo, maxCombo, songFinished)
    }

    ghost predicate Valid()
      reads this
    {
      Inv(lyrics, Snapshot())
    }

    constructor(lyrics: seq<Line>)
      ensures this.lyrics == lyrics && Snapshot() == INITIAL && Valid()
    {
      this.lyrics := lyrics;
      started := false;
      currentLineIndex := -1;
      currentCharIndex := 0;
      charStates := [];
      totalCorrect := 0;
      totalWrong := 0;
      currentCombo := 0;
      maxCombo := 0;
      songFinished := false;
    }

    /** `skipNonTypable`: advance the cursor over non-typable characters. */
    method SkipNonTypable(expLower: string)
      modifies this`currentCharIndex
      ensures currentCharIndex == SkipFrom(expLower, old(currentCharIndex))
      ensures Snapshot() == old(Snapshot()).(cursor := currentCharIndex)
    {
      var len := |expLower|;
      while currentCharIndex < len && !IsTypable(expLower[currentCharIndex])
        invariant SkipFrom(expLower, currentCharIndex) == SkipFrom(expLower, old(currentCharIndex))
        decreases len - currentCharIndex
      {
        currentCharIndex := currentCharIndex + 1;
      }
    }

    /** `resetLine`: make line `lineIndex` active with fresh verdicts. */
    method ResetLine(lineIndex: int)
      modifies this
      ensures Snapshot() == LineReset(lyrics, old(Snapshot()), lineIndex)
    {
      currentLineIndex := lineIndex;
      currentCharIndex := 0;
      if lineIndex < 0 || lineIndex >= |lyrics| {
        charStates := [];
        return;
      }
      var line := lyrics[lineIndex];
      charStates := seq(|line.romaji|, _ => Pending);
      SkipLower(line.romaji, 0);
      SkipNonTypable(LowerAll(line.romaji));
    }

    /** `markTimeoutMisses`: the timeout of the active line. */
    method MarkTimeoutMisses()
      modifies this
      requires Shaped(lyrics, Snapshot())
      ensures Snapshot() == TimeoutMiss(lyrics, old(Snapshot()))
    {
      if currentLineIndex < 0 || currentLineIndex >= |lyrics| {
        return;
      }
      var line := lyrics[currentLineIndex];
      var expLower := LowerAll(line.romaji);
      var len := |expLower|;
      ghost var r := line.romaji;
      ghost var s0 := Snapshot();
      for i := currentCharIndex to len
        invariant Snapshot() == MissesUpTo(r, s0, i)
      {
        MissesUpToStep(r, s0, i);
        if !IsTypable(expLower[i]) {
          continue;
        }
        if charStates[i] == Pending {
          charStates := charStates[i := Wrong];
          totalWrong := totalWrong + 1;
          currentCombo := 0;
        }
      }
      currentCharIndex := len;
    }

    /** The crediting step repeated in each branch of `tryAlias` and in the
        exact-match branch of `handleKeydown`: the next n positions become
        Correct, the counters and the combo grow by n, maxCombo follows the
        combo, and the cursor moves n positions. */
    method CreditKeys(n: nat)
      modifies this`charStates, this`totalCorrect, this`currentCombo, this`maxCombo, this`currentCharIndex
      requires 1 <= n <= 2 && currentCharIndex + n <= |charStates|
      ensures Snapshot() == Credit(old(Snapshot()), old(currentCharIndex), n).(cursor := old(currentCharIndex) + n)
    {
      MarkCorrectOneTwo(charStates, currentCharIndex);
      if n == 1 {
        charStates := charStates[currentCharIndex := Correct];
      } else {
        charStates := charStates[currentCharIndex := Correct][currentCharIndex + 1 := Correct];
      }
      totalCorrect := totalCorrect + n;
      currentCombo := currentCombo + n;
      if currentCombo > maxCombo { maxCombo := currentCombo; }
      currentCharIndex := currentCharIndex + n;
    }

    /** `tryAlias`: try the spelling aliases in order at the cursor; on a hit
        the rule's positions are credited and the cursor moves past them
        (the caller then skips separators). */
    method TryAlias(exp: string, idx: nat, keyLower: char) returns (hit: bool)
      modifies this
      requires idx == currentCharIndex && idx < |exp| && |charStates| == |exp|
      ensures (hit, Snapshot()) == AliasStep(exp, old(Snapshot()), idx, keyLower)
    {
      var expLower := LowerAll(exp);
      var len := |expLower|;
      ghost var found := FirstAlias(exp, idx, keyLower, charStates);

      // 1) "hi" completed by "i" after a correct character
      if idx > 0 && idx + 1 < len && expLower[idx] == 'h' && expLower[idx + 1] == 'i' &&
         keyLower == 'i' && charStates[idx - 1] == Correct {
        assert Applies(LongI, exp, idx, keyLower, charStates);
        assert found == Some(LongI);
        CreditKeys(2);
        return true;
      }
      assert !Applies(LongI, exp, idx, keyLower, charStates);

      // 2) "t" for the "c" of "chi" at the start of the line
      if idx == 0 && len >= 3 && expLower[..3] == "chi" && keyLower == 't' {
        assert expLower[0] == 'c' && expLower[1] == 'h' && expLower[2] == 'i';
        assert Applies(ChiAsTi, exp, idx, keyLower, charStates);
        assert found == Some(ChiAsTi);
        CreditKeys(1);
        return true;
      }
      assert idx == 0 && len >= 3 && expLower[0] == 'c' && expLower[1] == 'h' && expLower[2] == 'i' ==>
        expLower[..3] == "chi";
      assert !Applies(ChiAsTi, exp, idx, keyLower, charStates);

      // 3) "u" completing "tsu" after a correct "t"
      if idx > 0 && idx + 1 < len && expLower[idx - 1] == 't' && expLower[idx] == 's' &&
         expLower[idx + 1] == 'u' && keyLower == 'u' && charStates[idx - 1] == Correct {
        assert Applies(TsuAsTu, exp, idx, keyLower, charStates);
        assert found == Some(TsuAsTu);
        CreditKeys(2);
        return true;
      }
      assert !Applies(TsuAsTu, exp, idx, keyLower, charStates);

      // 4) "h" for the "f" of "fu"
      if idx + 1 < len && expLower[idx] == 'f' && expLower[idx + 1] == 'u' && keyLower == 'h' {
        assert Applies(FuAsHu, exp, idx, keyLower, charStates);
        assert found == Some(FuAsHu);
        CreditKeys(1);
        return true;
      }
      assert !Applies(FuAsHu, exp, idx, keyLower, charStates);

      // 5) "z" for the "j" of "ji" at the start of the line
      if idx == 0 && len >= 2 && expLower[0] == 'j' && expLower[1] == 'i' && keyLower == 'z' {
        assert Applies(JiAsZi, exp, idx, keyLower, charStates);
        assert found == Some(JiAsZi);
        CreditKeys(1);
        return true;
      }
      assert !Applies(JiAsZi, exp, idx, keyLower, charStates);
      assert found == None;
      return false;
    }

    /** `handleKeydown` for a keyboard event with the given `key` string and
        composition flag: the guards, then ScoreKey. */
    method HandleKeydown(key: string, isComposing: bool)
      modifies this
      requires Valid()
      ensures Valid() && Snapshot() == KeyEvent(lyrics, old(Snapshot()), key, isComposing)
    {
      ghost var s0 := Snapshot();
      ghost var target := KeyEvent(lyrics, s0, key, isComposing);
      assert Inv(lyrics, target) by {
        KeystrokeProgress(lyrics, s0, key);
        KeyEventFilter(lyrics, s0, key, isComposing);
      }
      if key == "Process" {
        return;
      }
      if isComposing && !(|key| == 1 && IsTypable(key[0])) {
        return;
      }
      assert target == Keystroke(lyrics, s0, key);
      if !started {
        return;
      }
      if |lyrics| == 0 {
        return;
      }
      if currentLineIndex < 0 || currentLineIndex >= |lyrics| {
        return;
      }
      OneCodeUnitIff(key);
      if CodeUnits(key) != 1 {
        return;
      }
      ScoreKey(key);
    }

    /** The rest of `handleKeydown`, once the guards have passed: skip
        separators, stop at the end of the line, else judge the key. */
    method ScoreKey(key: string)
      modifies this
      requires Valid() && started && Active(lyrics, Snapshot()) && OneCodeUnit(key)
      ensures Snapshot() == Keystroke(lyrics, old(Snapshot()), key)
    {
      ghost var s0 := Snapshot();
      var keyLower := Lower(key[0]);
      var line := lyrics[currentLineIndex];
      var exp := line.romaji;
      var expLower := LowerAll(exp);
      var len := |expLower|;

      SkipLower(exp, currentCharIndex);
      SkipAtRest(lyrics, s0);
      SkipNonTypable(expLower);
      if currentCharIndex >= len {
        KeystrokeIgnored(lyrics, s0, key);
        return;
      }
      KeystrokeJudges(lyrics, s0, key);
      JudgeKey(exp, expLower, keyLower);
    }

    /** The verdict part of `handleKeydown`: an exact match, else an alias,
        else a miss; the cursor then skips separators. */
    method JudgeKey(exp: string, expLower: string, keyLower: char)
      modifies this
      requires |expLower| == |exp| && forall i :: 0 <= i < |exp| ==> expLower[i] == Lower(exp[i])
      requires currentCharIndex < |exp| && |charStates| == |exp|
      ensures Snapshot() == Judge(exp, old(Snapshot()), old(currentCharIndex), keyLower)
    {
      ghost var s0 := Snapshot();
      ghost var c := currentCharIndex;
      if keyLower == expLower[currentCharIndex] {
        JudgeExact(exp, expLower);
        assert Snapshot() == Judge(exp, s0, c, keyLower) by { JudgeCases(exp, s0, c, keyLower); }
      } else {
        JudgeOther(exp, expLower, keyLower);
      }
    }

    /** The verdict for a key that is not the expected character: an alias
        if one applies, else a miss. */
    method JudgeOther(exp: string, expLower: string, keyLower: char)
      modifies this
      requires |expLower| == |exp| && forall i :: 0 <= i < |exp| ==> expLower[i] == Lower(exp[i])
      requires currentCharIndex < |exp| && |charStates| == |exp|
      requires keyLower != Lower(exp[currentCharIndex])
      ensures Snapshot() == Judge(exp, old(Snapshot()), old(currentCharIndex), keyLower)
    {
      var hit := TryAlias(exp, currentCharIndex, keyLower);
      if hit {
        SkipSameTypability(exp, expLower, currentCharIndex);
        SkipNonTypable(expLower);
      } else {
        JudgeMiss(exp, expLower);
      }
    }

    /** The exact-match branch of the verdict. */
    method JudgeExact(exp: string, expLower: string)
      modifies this
      requires |expLower| == |exp| && forall i :: 0 <= i < |exp| ==> expLower[i] == Lower(exp[i])
      requires currentCharIndex < |exp| && |charStates| == |exp|
      ensures Snapshot() == Credit(old(Snapshot()), old(currentCharIndex), 1).(cursor := SkipFrom(exp, old(currentCharIndex) + 1))
    {
      SkipSameTypability(exp, expLower, currentCharIndex + 1);
      CreditKeys(1);
      SkipNonTypable(expLower);
    }

    /** The miss branch of the verdict: a typable position is marked wrong
        and breaks the combo; a non-typable one is only stepped over. */
    method JudgeMiss(exp: string, expLower: string)
      modifies this
      requires |expLower| == |exp| && forall i :: 0 <= i < |exp| ==> expLower[i] == Lower(exp[i])
      requires currentCharIndex < |exp| && |charStates| == |exp|
      ensures var s0, c := old(Snapshot()), old(currentCharIndex);
        Snapshot() ==
          (if IsTypable(Lower(exp[c]))
           then s0.(states := s0.states[c := Wrong], wrong := s0.wrong + 1, combo := 0, cursor := SkipFrom(exp, c + 1))
           else s0.(cursor := SkipFrom(exp, c + 1)))
    {
      SkipSameTypability(exp, expLower, currentCharIndex + 1);
      if IsTypable(expLower[currentCharIndex]) {
        charStates := charStates[currentCharIndex := Wrong];
        totalWrong := totalWrong + 1;
        currentCombo := 0;
      }
      currentCharIndex := currentCharIndex + 1;
      SkipNonTypable(expLower);
    }

    /** `start`: the countdown has ended. The start time is not modelled. */
    method Start()
      modifies this
      requires Valid()
      ensures Valid() && Snapshot() == Begin(old(Snapshot()))
    {
      if !started {
        started := true;
      }
    }

    /** `updateByTime`: follow the playback time t to the line whose window
        contains it. */
    method UpdateByTime(currentTime: real)
      modifies this
      requires Valid()
      ensures Valid() && Snapshot() == TimeUpdate(lyrics, old(Snapshot()), currentTime)
    {
      ghost var s0 := Snapshot();
      TimeUpdateInv(lyrics, s0, currentTime);
      if |lyrics| == 0 {
        currentLineIndex := -1;
        return;
      }

      var targetIndex := -1;
      var i := 0;
      while i < |lyrics|
        invariant 0 <= i <= |lyrics| && targetIndex == -1
        invariant forall j :: 0 <= j < i ==> !Covers(lyrics[j], currentTime)
      {
        var l := lyrics[i];
        if currentTime >= l.start && currentTime < l.end {
          targetIndex := i;
          break;
        }
        i := i + 1;
      }
      assert targetIndex == TargetLine(lyrics, currentTime);

      if targetIndex != currentLineIndex {
        if currentLineIndex != -1 && targetIndex != -1 {
          MarkTimeoutMisses();
          TimeoutMissInv(lyrics, s0);
        }
        ResetLine(targetIndex);
      }
    }

    /** `resetAll`: back to the state of a new session. */
    method ResetAll()
      modifies this
      ensures Valid() && Snapshot() == INITIAL
    {
      started := false;
      currentLineIndex := -1;
      currentCharIndex := 0;
      charStates := [];
      totalCorrect := 0;
      totalWrong := 0;
      currentCombo := 0;
      maxCombo := 0;
      songFinished := false;
    }

    /** `getStats`, without the typing speed. */
    method GetStats() returns (stats: Stats)
      ensures stats == StatsOf(Snapshot())
    {
      var totalKey := totalCorrect + totalWrong;
      var accuracy := if totalKey > 0 then (totalCorrect as real / totalKey as real) * 100.0 else 0.0;
      stats := Stats(totalCorrect, totalWrong, accuracy, maxCombo);
    }

    /** One poll of `updateFromPlayer` at playback time t: follow the time,
        then, once, report the summary when the song is over. */
    method UpdateFromPlayer(t: real) returns (report: Option<Summary>)
      modifies this
      requires Valid()
      ensures Valid() && (Snapshot(), report) == Poll(lyrics, old(Snapshot()), t)
    {
      UpdateByTime(t);
      report := None;
      if !songFinished && |lyrics| > 0 {
        var lastEnd := lyrics[|lyrics| - 1].end;
        if t > lastEnd + FINISH_GRACE {
          songFinished := true;
          var stats := GetStats();
          var raw := stats.correct * CORRECT_POINTS - stats.wrong * WRONG_PENALTY +
            stats.maxCombo * COMBO_POINTS;
          var score: nat := if raw > 0 then raw else 0;
          report := Some(Summary(score, stats.correct, stats.wrong, stats.accuracy, stats.maxCombo));
        }
      }
    }
  }
}
