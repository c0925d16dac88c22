/** Table-driven kana to romaji transliteration (`kanaToRomaji`).
    Katakana is first shifted onto hiragana; the hiragana text is then
    scanned left to right: the small tsu doubles the next consonant,
    two-kana digraphs are looked up before single kana, and anything in
    neither table is copied unchanged. */
module Romaji {

  /** First and last katakana shifted onto hiragana (U+30A1..U+30F6). */
  const KATAKANA_FIRST: char := '\U{30A1}'
  const KATAKANA_LAST: char := '\U{30F6}'
  /** The distance between a katakana code point and its hiragana counterpart. */
  const KANA_OFFSET: int := 0x60

  /** The small tsu, the gemination mark. */
  const SOKUON: char := 'っ'

  predicate IsKatakana(c: char) {
    KATAKANA_FIRST <= c <= KATAKANA_LAST
  }

  function ToHiragana(c: char): char {
    if IsKatakana(c) then (c as int - KANA_OFFSET) as char else c
  }

  /** The katakana-to-hiragana pass, one character at a time. */
  function Hiraganize(s: string): (h: string)
    ensures |h| == |s|
    ensures forall i :: 0 <= i < |s| ==> h[i] == ToHiragana(s[i])
  {
    seq(|s|, i requires 0 <= i < |s| => ToHiragana(s[i]))
  }

  /** The single-kana table. The small tsu maps to the empty string, which
      `kanaToRomaji` treats as "not found". */
  function KanaRomaji(c: char): string {
    match c
    case 'あ' => "a"   case 'い' => "i"   case 'う' => "u"   case 'え' => "e"   case 'お' => "o"
    case 'か' => "ka"  case 'き' => "ki"  case 'く' => "ku"  case 'け' => "ke"  case 'こ' => "ko"
    case 'さ' => "sa"  case 'し' => "shi" case 'す' => "su"  case 'せ' => "se"  case 'そ' => "so"
    case 'た' => "ta"  case 'ち' => "chi" case 'つ' => "tsu" case 'て' => "te"  case 'と' => "to"
    case 'な' => "na"  case 'に' => "ni"  case 'ぬ' => "nu"  case 'ね' => "ne"  case 'の' => "no"
    case 'は' => "ha"  case 'ひ' => "hi"  case 'ふ' => "fu"  case 'へ' => "he"  case 'ほ' => "ho"
    case 'ま' => "ma"  case 'み' => "mi"  case 'む' => "mu"  case 'め' => "me"  case 'も' => "mo"
    case 'や' => "ya"  case 'ゆ' => "yu"  case 'よ' => "yo"
    case 'ら' => "ra"  case 'り' => "ri"  case 'る' => "ru"  case 'れ' => "re"  case 'ろ' => "ro"
    case 'わ' => "wa"  case 'を' => "wo"  case 'ん' => "n"
    case 'が' => "ga"  case 'ぎ' => "gi"  case 'ぐ' => "gu"  case 'げ' => "ge"  case 'ご' => "go"
    case 'ざ' => "za"  case 'じ' => "ji"  case 'ず' => "zu"  case 'ぜ' => "ze"  case 'ぞ' => "zo"
    case 'だ' => "da"  case 'ぢ' => "ji"  case 'づ' => "zu"  case 'で' => "de"  case 'ど' => "do"
    case 'ば' => "ba"  case 'び' => "bi"  case 'ぶ' => "bu"  case 'べ' => "be"  case 'ぼ' => "bo"
    case 'ぱ' => "pa"  case 'ぴ' => "pi"  case 'ぷ' => "pu"  case 'ぺ' => "pe"  case 'ぽ' => "po"
    case 'ぁ' => "a"   case 'ぃ' => "i"   case 'ぅ' => "u"   case 'ぇ' => "e"   case 'ぉ' => "o"
    case 'ゃ' => "ya"  case 'ゅ' => "yu"  case 'ょ' => "yo"
    case 'っ' => ""
    case _ => ""
  }

  /** The digraph table holds the 33 pairs "head kana + small ya/yu/yo":
      11 heads, each with its romaji stem, times 3 small kana. */
  function DigraphStem(c: char): string {
    match c
    case 'き' => "ky"  case 'ぎ' => "gy"  case 'し' => "sh"  case 'じ' => "j"
    case 'ち' => "ch"  case 'に' => "ny"  case 'ひ' => "hy"  case 'び' => "by"
    case 'ぴ' => "py"  case 'み' => "my"  case 'り' => "ry"
    case _ => ""
  }

  function DigraphVowel(c: char): string {
    match c
    case 'ゃ' => "a"  case 'ゅ' => "u"  case 'ょ' => "o"
    case _ => ""
  }

  /** The digraph table lookup; "" when the pair is not in the table. */
  function DigraphRomaji(a: char, b: char): string {
    if DigraphStem(a) != "" && DigraphVowel(b) != "" then DigraphStem(a) + DigraphVowel(b) else ""
  }

  predicate IsAsciiLetter(c: char) {
    'a' <= c <= 'z' || 'A' <= c <= 'Z'
  }

  /** The romaji of the mora starting at index j: the digraph on t[j..j+2]
      if there is one, otherwise the single kana t[j], otherwise "". */
  function MoraRomaji(t: string, j: nat): string {
    if j + 1 < |t| && DigraphRomaji(t[j], t[j + 1]) != "" then DigraphRomaji(t[j], t[j + 1])
    else if j < |t| then KanaRomaji(t[j])
    else ""
  }

  /** What a small tsu at index i emits: the first letter of the following
      mora's romaji, or nothing when there is no letter to double. */
  function Geminate(t: string, i: nat): string {
    var next := MoraRomaji(t, i + 1);
    if next != "" && IsAsciiLetter(next[0]) then [next[0]] else ""
  }

  /** One step of the scan at index i: what it emits and how many
      characters it consumes. */
  function ScanAt(t: string, i: nat): (step: (string, nat))
    requires i < |t|
    ensures 1 <= step.1 <= 2 && i + step.1 <= |t|
  {
    if t[i] == SOKUON then (Geminate(t, i), 1)
    else if i + 1 < |t| && DigraphRomaji(t[i], t[i + 1]) != "" then (DigraphRomaji(t[i], t[i + 1]), 2)
    else if KanaRomaji(t[i]) != "" then (KanaRomaji(t[i]), 1)
    else ([t[i]], 1)
  }

  /** The scan over the hiragana text from index i to its end. */
  function RomanizeFrom(t: string, i: nat): string
    decreases |t| - i
  {
    if i >= |t| then "" else ScanAt(t, i).0 + RomanizeFrom(t, i + ScanAt(t, i).1)
  }

  /** The whole transliteration, as a function of the input text. */
  function Transliterate(s: string): string {
    RomanizeFrom(Hiraganize(s), 0)
  }

  /** The loop of `kanaToRomaji`: a manually advanced index and an accumulating result. */
  method KanaToRomaji(jpText: string) returns (result: string)
    ensures result == Transliterate(jpText)
    ensures jpText == "" ==> result == ""
  {
    if jpText == "" {
      return "";
    }
    var text := Hiraganize(jpText);
    ghost var total := RomanizeFrom(text, 0);
    result := "";
    var i := 0;
    while i < |text|
      invariant 0 <= i <= |text|
      invariant result + RomanizeFrom(text, i) == total
      decreases |text| - i
    {
      Advance(text, i, result);
      var ch := text[i];
      if ch == SOKUON {
        var nextRoma := MoraRomaji(text, i + 1);
        assert result + RomanizeFrom(text, i) == result + Geminate(text, i) + RomanizeFrom(text, i + 1);
        assert Geminate(text, i) == "" ==> result + Geminate(text, i) == result;
        if nextRoma != "" && IsAsciiLetter(nextRoma[0]) {
          result := result + [nextRoma[0]];
        }
        i := i + 1;
        continue;
      }
      var pair := if i + 1 < |text| then DigraphRomaji(text[i], text[i + 1]) else "";
      if pair != "" {
        result := result + pair;
        i := i + 2;
        continue;
      }
      var single := KanaRomaji(ch);
      if single != "" {
        result := result + single;
      } else {
        result := result + [ch];
      }
      i := i + 1;
    }
  }

  /** Appending one scan step to the text emitted so far. */
  lemma Advance(t: string, i: nat, done: string)
    requires i < |t|
    ensures RomanizeFrom(t, i) == ScanAt(t, i).0 + RomanizeFrom(t, i + ScanAt(t, i).1)
    ensures done + RomanizeFrom(t, i) == (done + ScanAt(t, i).0) + RomanizeFrom(t, i + ScanAt(t, i).1)
  {
  }

  // ---- Properties of the tables ----

  predicate IsAsciiLower(c: char) {
    'a' <= c <= 'z'
  }

  predicate AllLower(s: string) {
    forall k :: 0 <= k < |s| ==> IsAsciiLower(s[k])
  }

  lemma AllLowerConcat(a: string, b: string)
    requires AllLower(a) && AllLower(b)
    ensures AllLower(a + b)
  {
    forall k | 0 <= k < |a + b| ensures IsAsciiLower((a + b)[k]) {
      if k >= |a| { assert (a + b)[k] == b[k - |a|]; }
    }
  }

  /** Every entry of the single-kana table is lower-case ASCII. */
  lemma KanaLowercase(c: char)
    ensures AllLower(KanaRomaji(c))
  {
  }

  /** Every entry of the digraph table is lower-case ASCII. */
  lemma DigraphLowercase(a: char, b: char)
    ensures AllLower(DigraphRomaji(a, b))
  {
    assert AllLower(DigraphStem(a));
    assert AllLower(DigraphVowel(b));
    AllLowerConcat(DigraphStem(a), DigraphVowel(b));
  }

  /** So every entry is either empty or starts with a lower-case letter, and
      the letter test on a found mora never rejects it. */
  lemma TablesStartWithLetter(a: char, b: char)
    ensures KanaRomaji(a) != "" ==> IsAsciiLower(KanaRomaji(a)[0])
    ensures DigraphRomaji(a, b) != "" ==> IsAsciiLower(DigraphRomaji(a, b)[0])
  {
    KanaLowercase(a);
    DigraphLowercase(a, b);
  }

  /** A digraph head is always a kana of the single table too, and the small
      tsu heads no digraph. */
  lemma DigraphHeadIsKana(a: char, b: char)
    ensures DigraphRomaji(a, b) != "" ==> KanaRomaji(a) != "" && a != SOKUON
  {
  }

  // ---- Properties of the scan ----

  /** A digraph pair emits its table value and the scan resumes two
      characters later. */
  lemma DigraphConsumesTwo(t: string, i: nat)
    requires i + 1 < |t| && DigraphRomaji(t[i], t[i + 1]) != ""
    ensures RomanizeFrom(t, i) == DigraphRomaji(t[i], t[i + 1]) + RomanizeFrom(t, i + 2)
  {
    DigraphHeadIsKana(t[i], t[i + 1]);
  }

  /** The small tsu emits exactly the first letter of the next mora (looked up
      digraph first), or nothing at the end of the text or before a character
      in neither table, and the scan resumes at the very next character. */
  lemma SokuonDoublesNextConsonant(t: string, i: nat)
    requires i < |t| && t[i] == SOKUON
    ensures RomanizeFrom(t, i) == Geminate(t, i) + RomanizeFrom(t, i + 1)
    ensures i + 2 < |t| && DigraphRomaji(t[i + 1], t[i + 2]) != "" ==>
              Geminate(t, i) == [DigraphRomaji(t[i + 1], t[i + 2])[0]]
    ensures i + 1 < |t| && !(i + 2 < |t| && DigraphRomaji(t[i + 1], t[i + 2]) != "")
              && KanaRomaji(t[i + 1]) != "" ==>
              Geminate(t, i) == [KanaRomaji(t[i + 1])[0]]
    ensures i + 1 == |t| ==> Geminate(t, i) == ""
    ensures i + 1 < |t| && KanaRomaji(t[i + 1]) == "" ==> Geminate(t, i) == ""
  {
    if i + 2 < |t| {
      TablesStartWithLetter(t[i + 1], t[i + 2]);
      DigraphHeadIsKana(t[i + 1], t[i + 2]);
    } else if i + 1 < |t| {
      TablesStartWithLetter(t[i + 1], t[i + 1]);
    }
  }

  /** A character in neither table (and not the small tsu). */
  predicate Unmapped(c: char) {
    c != SOKUON && KanaRomaji(c) == ""
  }

  /** A character in neither table is copied as is, wherever it stands,
      and the scan resumes at the next character. */
  lemma UnmappedStep(t: string, i: nat)
    requires i < |t| && Unmapped(t[i])
    ensures RomanizeFrom(t, i) == [t[i]] + RomanizeFrom(t, i + 1)
  {
    DigraphHeadIsKana(t[i], if i + 1 < |t| then t[i + 1] else t[i]);
  }

  /** Text made only of unmapped characters (kanji, ASCII, punctuation) is
      copied unchanged. */
  lemma {:induction false} UnmappedCopied(t: string, i: nat)
    requires i <= |t|
    requires forall j :: i <= j < |t| ==> Unmapped(t[j])
    ensures RomanizeFrom(t, i) == t[i..]
    decreases |t| - i
  {
    if i < |t| {
      UnmappedStep(t, i);
      UnmappedCopied(t, i + 1);
      assert t[i..] == [t[i]] + t[i + 1..];
    }
  }

  /** Pure ASCII input is returned as is. */
  lemma AsciiUnchanged(s: string)
    requires forall j :: 0 <= j < |s| ==> s[j] < '\U{80}'
    ensures Transliterate(s) == s
  {
    var h := Hiraganize(s);
    assert h == s;
    UnmappedCopied(h, 0);
  }

  /** Texts that agree up to the katakana/hiragana script give the same romaji. */
  lemma ScriptInsensitive(s: string, u: string)
    requires |s| == |u|
    requires forall j :: 0 <= j < |s| ==> ToHiragana(s[j]) == ToHiragana(u[j])
    ensures Transliterate(s) == Transliterate(u)
  {
    assert Hiraganize(s) == Hiraganize(u);
  }

  /** A katakana character and its hiragana counterpart agree up to script. */
  lemma KatakanaCounterpart(c: char)
    requires IsKatakana(c)
    ensures ToHiragana(c) == ToHiragana((c as int - KANA_OFFSET) as char)
    ensures !IsKatakana(ToHiragana(c))
  {
  }

  /** A character that the tables turn into romaji: the small tsu or a kana
      of the single table (every digraph head is one). */
  predicate Mapped(c: char) {
    c == SOKUON || KanaRomaji(c) != ""
  }

  /** A scan step at a mapped kana emits only lower-case letters. */
  lemma StepLowercase(t: string, i: nat)
    requires i < |t| && Mapped(t[i])
    ensures AllLower(ScanAt(t, i).0)
  {
    if t[i] == SOKUON {
      if i + 1 < |t| {
        KanaLowercase(t[i + 1]);
        if i + 2 < |t| { DigraphLowercase(t[i + 1], t[i + 2]); }
        assert AllLower(MoraRomaji(t, i + 1));
      }
    } else if i + 1 < |t| && DigraphRomaji(t[i], t[i + 1]) != "" {
      DigraphLowercase(t[i], t[i + 1]);
    } else {
      KanaLowercase(t[i]);
    }
  }

  /** Hiragana text made only of mapped kana becomes lower-case ASCII letters,
      which is all typable. */
  lemma {:induction false} MappedGivesLowercase(t: string, i: nat)
    requires forall j {:trigger Mapped(t[j])} :: 0 <= j < |t| ==> Mapped(t[j])
    ensures AllLower(RomanizeFrom(t, i))
    decreases |t| - i
  {
    if i < |t| {
      var step := ScanAt(t, i);
      Advance(t, i, "");
      assert Mapped(t[i]);
      StepLowercase(t, i);
      MappedGivesLowercase(t, i + step.1);
      AllLowerConcat(step.0, RomanizeFrom(t, i + step.1));
    }
  }

  // ---- Worked examples ----

  lemma ExampleDigraph()
    ensures Transliterate("きゃ") == "kya"
    ensures Transliterate("キャ") == "kya"
  {
  }

  lemma ExampleSokuon()
    ensures Transliterate("った") == "tta"
    ensures Transliterate("っ") == ""
  {
  }

  lemma ExamplePassThrough()
    ensures Transliterate("") == ""
    ensures Transliterate("漢") == "漢"
    ensures Transliterate("か漢") == "ka漢"
  {
    var h := Hiraganize("か漢");
    assert h == "か漢";
    Advance(h, 0, "");
    UnmappedStep(h, 1);
  }
}
