/**
  Where the phonemes of a word come from: which letters are heard, as what, and
  which ones are used up by a letter before them.
 */
module MetaphoneTrace {
  import opened Metaphone

  // A locale in which at least the ASCII capitals are letters and their own upper case.
  ghost predicate Latin(l: Locale) {
    && Sane(l)
    && (forall c | 'A' <= c <= 'Z' :: l.alpha(c) && l.upper(c) == c)
    && (forall c :: l.upper(l.upper(c)) == l.upper(c))
  }

  /* What is heard, from the phoneme's side */

  predicate Soft(c: char) {
    c == 'E' || c == 'I' || c == 'Y'
  }

  predicate ChangesH(c: char) {
    c == 'C' || c == 'G' || c == 'P' || c == 'S' || c == 'T'
  }

  predicate KeepsGH(c: char) {
    c == 'B' || c == 'D' || c == 'H'
  }

  // Not dropped as a repetition.
  predicate Sounded(v: Window) {
    v.curr != v.prev || v.curr == 'C'
  }

  // -CIA-; CH but not SCH or CHR; SH; -SIO-, -SIA-, -TIO-, -TIA-; SCHW.
  predicate SoundsLikeSH(v: Window) {
    || (v.curr == 'C' && v.next == 'I' && v.afterNext == 'A')
    || (v.curr == 'C' && v.next == 'H' && v.afterNext != 'R' && v.prev != 'S')
    || (v.curr == 'S' && v.next == 'H')
    || ((v.curr == 'S' || v.curr == 'T') && v.next == 'I' && (v.afterNext == 'O' || v.afterNext == 'A'))
    || SCHW(v)
  }

  predicate SCHW(v: Window) {
    v.curr == 'S' && v.next == 'C' && v.ahead2 == 'H' && v.ahead3 == 'W'
  }

  predicate GHAsF(v: Window) {
    v.curr == 'G' && v.next == 'H' && !KeepsGH(v.back3) && v.back4 != 'H'
  }

  predicate SoftDG(v: Window) {
    v.curr == 'D' && v.next == 'G' && Soft(v.afterNext)
  }

  // A C that is neither soft nor SH.
  predicate HardC(v: Window) {
    v.curr == 'C' && !Soft(v.next) && (v.next == 'H' ==> v.afterNext == 'R' || v.prev == 'S')
  }

  // A G that is neither soft, nor part of GH, nor silent before a final N or NED.
  predicate HardG(l: Locale, v: Window) {
    && v.curr == 'G' && v.next != 'H' && !Soft(v.next)
    && (v.next == 'N' ==> l.alpha(v.afterNext) && !(v.afterNext == 'E' && v.ahead3 == 'D'))
  }

  predicate HeardAs(l: Locale, v: Window, c: char) {
    match c
    case 'X' => SoundsLikeSH(v)
    case '0' => v.curr == 'T' && v.next == 'H'
    case 'J' => v.curr == 'J' || SoftDG(v) || (v.curr == 'G' && Soft(v.next))
    case 'F' => v.curr == 'F' || v.curr == 'V' || (v.curr == 'P' && v.next == 'H') || GHAsF(v)
    case 'K' => v.curr == 'Q' || v.curr == 'X' || (v.curr == 'K' && v.prev != 'C') || HardC(v) || HardG(l, v)
    case 'S' =>
      || v.curr == 'Z' || v.curr == 'X' || (v.curr == 'S' && !SoundsLikeSH(v))
      || (v.curr == 'C' && Soft(v.next) && v.prev != 'S' && !SoundsLikeSH(v))
    case 'T' => (v.curr == 'T' && v.next != 'H' && !SoundsLikeSH(v)) || (v.curr == 'D' && !SoftDG(v))
    case 'P' => v.curr == 'P' && v.next != 'H'
    case 'B' => v.curr == 'B' && v.prev != 'M'
    case 'H' => v.curr == 'H' && Vowel(v.next) && !ChangesH(v.prev)
    case 'W' => v.curr == 'W' && Vowel(v.next)
    case 'Y' => v.curr == 'Y' && Vowel(v.next)
    case _ => (c == 'L' || c == 'M' || c == 'N' || c == 'R') && v.curr == c
  }

  predicate Heard(l: Locale, v: Window, c: char) {
    Sounded(v) && HeardAs(l, v, c)
  }

  // How many letters behind it a letter uses up.
  function UsesUp(v: Window): nat {
    if !Sounded(v) then 0
    else if SCHW(v) then 2
    else if ((v.curr == 'C' || v.curr == 'S' || v.curr == 'T') && v.next == 'H') || SoftDG(v) || GHAsF(v) then 1
    else 0
  }

  /* The rules agree */

  lemma LetterClasses(l: Locale, c: char)
    requires Latin(l) && l.upper(c) == c
    ensures MakeSoft(l, c) <==> Soft(c)
    ensures IsVowel(l, c) <==> Vowel(c)
    ensures AffectH(l, c) <==> ChangesH(c)
    ensures NoGhToF(l, c) <==> KeepsGH(c)
  {
  }

  // The letters whose class matters are upper case, as every letter is when it is read.
  ghost predicate Raised4(l: Locale, v: Window) {
    l.upper(v.next) == v.next && l.upper(v.afterNext) == v.afterNext && l.upper(v.prev) == v.prev && l.upper(v.back3) == v.back3
  }

  lemma WindowIsRaised(l: Locale, w: string, i: nat)
    requires Latin(l) && i < |w|
    ensures Raised4(l, WindowAt(l, w, i))
  {
  }

  predicate Contextual(c: char) {
    c == 'B' || c == 'D' || c == 'H' || c == 'K' || c == 'P' || c == 'W' || c == 'Y'
  }

  lemma RulesWithContext(l: Locale, v: Window, c: char)
    requires Latin(l) && Raised4(l, v) && Contextual(v.curr)
    ensures c in Rule(l, v).emit <==> Heard(l, v, c)
    ensures Rule(l, v).skip == UsesUp(v)
  {
    LetterClasses(l, v.next);
    LetterClasses(l, v.afterNext);
    LetterClasses(l, v.prev);
    hide MakeSoft, NoGhToF, IsVowel, AffectH;
  }

  lemma OtherRules(l: Locale, v: Window, c: char)
    requires Latin(l) && v.curr != 'C' && v.curr != 'G' && v.curr != 'S' && v.curr != 'T' && !Contextual(v.curr)
    ensures c in Rule(l, v).emit <==> Heard(l, v, c)
    ensures Rule(l, v).skip == UsesUp(v)
  {
    hide MakeSoft, NoGhToF, IsVowel, AffectH, RuleC, RuleG, RuleS, RuleT, SoundsLikeSH, HardC, HardG, SCHW, SoftDG, GHAsF;
    LongSoundsNeedTheirLetters(l, v);
  }

  lemma LongSoundsNeedTheirLetters(l: Locale, v: Window)
    ensures SoundsLikeSH(v) ==> v.curr == 'C' || v.curr == 'S' || v.curr == 'T'
    ensures HardC(v) ==> v.curr == 'C'
    ensures HardG(l, v) ==> v.curr == 'G'
    ensures SCHW(v) ==> v.curr == 'S'
    ensures SoftDG(v) ==> v.curr == 'D'
    ensures GHAsF(v) ==> v.curr == 'G'
  {
  }

  lemma RulesForC(l: Locale, v: Window, c: char)
    requires Latin(l) && Raised4(l, v) && v.curr == 'C'
    ensures c in Rule(l, v).emit <==> Heard(l, v, c)
    ensures Rule(l, v).skip == UsesUp(v)
  {
    LetterClasses(l, v.next);
    hide MakeSoft, NoGhToF, IsVowel, AffectH;
  }

  lemma RulesForG(l: Locale, v: Window, c: char)
    requires Latin(l) && Raised4(l, v) && v.curr == 'G'
    ensures c in Rule(l, v).emit <==> Heard(l, v, c)
    ensures Rule(l, v).skip == UsesUp(v)
  {
    LetterClasses(l, v.next);
    LetterClasses(l, v.back3);
    hide MakeSoft, NoGhToF, IsVowel, AffectH;
  }

  lemma RulesForST(l: Locale, v: Window, c: char)
    requires Latin(l) && Raised4(l, v) && (v.curr == 'S' || v.curr == 'T')
    ensures c in Rule(l, v).emit <==> Heard(l, v, c)
    ensures Rule(l, v).skip == UsesUp(v)
  {
    hide MakeSoft, NoGhToF, IsVowel, AffectH;
  }

  // What a rule emits is what is heard, and it skips what is used up.
  lemma EmittedIsHeard(l: Locale, w: string, i: nat, c: char)
    requires Latin(l) && i < |w|
    ensures var v := WindowAt(l, w, i);
            (c in Rule(l, v).emit <==> Heard(l, v, c)) && Rule(l, v).skip == UsesUp(v)
  {
    var v := WindowAt(l, w, i);
    WindowIsRaised(l, w, i);
    hide Rule, Heard, UsesUp, WindowAt, Latin, Raised4;
    match v.curr
    case 'C' => RulesForC(l, v, c);
    case 'G' => RulesForG(l, v, c);
    case 'S' => RulesForST(l, v, c);
    case 'T' => RulesForST(l, v, c);
    case _ =>
      if Contextual(v.curr) {
        RulesWithContext(l, v, c);
      } else {
        OtherRules(l, v, c);
      }
  }

  // Only X becomes two phonemes.
  lemma EmitsOnce(l: Locale, v: Window)
    ensures |Rule(l, v).emit| <= 1 || (v.curr == 'X' && Sounded(v) && Rule(l, v).emit == "KS")
    ensures l.alpha('X') && v.curr == 'X' && Sounded(v) ==> Rule(l, v).emit == "KS"
  {
    hide MakeSoft, NoGhToF, IsVowel, AffectH;
  }

  // s is exactly what is heard: nothing twice, and X as K and then S.
  ghost predicate Says(l: Locale, v: Window, s: string) {
    && (if v.curr == 'X' && Sounded(v) then s == "KS" else |s| <= 1)
    && forall c :: c in s <==> Heard(l, v, c)
  }

  /* Reading the word by its own letters */

  function Letter(l: Locale, w: string, p: int): char {
    if 0 <= p < |w| then l.upper(w[p]) else '\0'
  }

  // The letters around position p: one back, one and two ahead, three and four back, two and three ahead.
  function Around(l: Locale, w: string, p: int): Window {
    Window(Letter(l, w, p), Letter(l, w, p - 1), Letter(l, w, p + 1), Letter(l, w, p + 2),
           Letter(l, w, p - 3), Letter(l, w, p - 4), Letter(l, w, p + 2), Letter(l, w, p + 3))
  }

  lemma WindowIsAround(l: Locale, w: string, i: nat)
    requires Sane(l) && i < |w|
    ensures WindowAt(l, w, i) == Around(l, w, i)
  {
  }

  // The rule for a letter says what is heard there and skips what it uses up.
  lemma RuleSays(l: Locale, w: string, i: nat)
    requires Latin(l) && i < |w|
    ensures var r := Rule(l, WindowAt(l, w, i));
            Says(l, Around(l, w, i), r.emit) && r.skip == UsesUp(Around(l, w, i))
  {
    var v := WindowAt(l, w, i);
    WindowIsAround(l, w, i);
    EmitsOnce(l, v);
    assert l.alpha('X');
    hide Rule, Heard, WindowAt, Around, UsesUp, Latin;
    EmittedIsHeard(l, w, i, 'X');
    forall c
      ensures c in Rule(l, v).emit <==> Heard(l, v, c)
    {
      EmittedIsHeard(l, w, i, c);
    }
  }

  /* The beginning of a word */

  // GN, KN, PN; AE; WH, WR, W before a vowel; X; and vowels.
  predicate BeginsAs(first: char, second: char, c: char) {
    match c
    case 'N' => (first == 'G' || first == 'K' || first == 'P') && second == 'N'
    case 'A' => first == 'A' && second != 'E'
    case 'E' => first == 'E' || (first == 'A' && second == 'E')
    case 'I' => first == 'I'
    case 'O' => first == 'O'
    case 'U' => first == 'U'
    case 'H' => first == 'W' && second == 'H'
    case 'R' => first == 'W' && second == 'R'
    case 'W' => first == 'W' && Vowel(second)
    case 'S' => first == 'X'
    case _ => false
  }

  // How many letters the beginning uses up: two for the pairs, one for a vowel or X, none if nothing is heard yet.
  function BeginningLength(first: char, second: char): nat {
    if (first == 'A' && second == 'E')
       || ((first == 'G' || first == 'K' || first == 'P') && second == 'N')
       || (first == 'W' && (second == 'H' || second == 'R' || Vowel(second))) then 2
    else if Vowel(first) || first == 'X' then 1
    else 0
  }

  ghost predicate BeginningSays(first: char, second: char, s: string) {
    |s| <= 1 && forall c :: c in s <==> BeginsAs(first, second, c)
  }

  lemma InitialSays(l: Locale, first: char, second: char)
    requires Latin(l) && l.upper(second) == second
    ensures BeginningSays(first, second, Initial(l, first, second).emit)
    ensures Initial(l, first, second).skip == BeginningLength(first, second)
  {
    LetterClasses(l, second);
    hide IsVowel;
    forall c
      ensures c in Initial(l, first, second).emit <==> BeginsAs(first, second, c)
    {
    }
  }

  /* Whole words */

  // From start on, p is not used up by a letter before it that is itself free.
  ghost predicate Free(l: Locale, w: string, start: nat, p: nat)
    decreases p
  {
    forall q: nat | start <= q < p && Free(l, w, start, q) :: q + UsesUp(Around(l, w, q)) < p
  }

  function Flatten(pieces: seq<string>): string {
    if pieces == [] then "" else pieces[0] + Flatten(pieces[1..])
  }

  lemma {:induction false} FlattenEmpty(n: nat, pieces: seq<string>)
    ensures Flatten(Blanks(n) + pieces) == Flatten(pieces)
  {
    if n == 0 {
      assert Blanks(0) + pieces == pieces;
    } else {
      assert (Blanks(n) + pieces)[1..] == Blanks(n - 1) + pieces;
      FlattenEmpty(n - 1, pieces);
    }
  }

  function Blanks(n: nat): (s: seq<string>)
    ensures |s| == n
  {
    seq(n, _ => "")
  }

  // What each letter from i on contributes: the one visited its phonemes, those it skips nothing.
  function PiecesFrom(l: Locale, w: string, i: nat): (pieces: seq<string>)
    requires i <= |w|
    ensures |pieces| == |w| - i
    decreases |w| - i
  {
    if i == |w| then []
    else
      var r := Rule(l, WindowAt(l, w, i));
      var n := if i + 1 + r.skip <= |w| then i + 1 + r.skip else |w|;
      [r.emit] + Blanks(n - i - 1) + PiecesFrom(l, w, n)
  }

  lemma FlattenHead(s: string, n: nat, pieces: seq<string>)
    ensures Flatten([s] + Blanks(n) + pieces) == s + Flatten(pieces)
  {
    assert [s] + Blanks(n) + pieces == [s] + (Blanks(n) + pieces);
    assert ([s] + (Blanks(n) + pieces))[1..] == Blanks(n) + pieces;
    FlattenEmpty(n, pieces);
  }

  lemma {:induction false} PiecesAreCode(l: Locale, w: string, i: nat)
    requires Sane(l) && IsWord(w) && i <= |w|
    ensures Flatten(PiecesFrom(l, w, i)) == CodeFrom(l, w, i)
    decreases |w| - i
  {
    if i == |w| {
      CodeEnds(l, w);
    } else {
      hide Rule, WindowAt, CodeFrom, Flatten, Blanks;
      CodeStep(l, w, i);
      var r := Rule(l, WindowAt(l, w, i));
      var n := i + 1 + r.skip;
      PiecesAreCode(l, w, n);
      FlattenHead(r.emit, n - i - 1, PiecesFrom(l, w, n));
    }
  }

  // The piece of a letter: what is heard there if it is free, nothing if it is used up.
  ghost predicate PieceIs(l: Locale, w: string, start: nat, p: nat, s: string) {
    if Free(l, w, start, p) then Says(l, Around(l, w, p), s) else s == ""
  }

  lemma FreeStep(l: Locale, w: string, start: nat, i: nat)
    requires start <= i && Free(l, w, start, i)
    ensures var n := i + 1 + UsesUp(Around(l, w, i));
            Free(l, w, start, n) && forall p | i < p < n :: !Free(l, w, start, p)
  {
    hide Around, UsesUp;
    var n := i + 1 + UsesUp(Around(l, w, i));
    forall p | i < p < n
      ensures !Free(l, w, start, p)
    {
      assert i + UsesUp(Around(l, w, i)) >= p;
    }
  }

  // The pieces of the letters from i on.
  ghost predicate PiecesHeard(l: Locale, w: string, start: nat, i: nat, pieces: seq<string>) {
    i + |pieces| == |w| && forall k | 0 <= k < |pieces| :: PieceIs(l, w, start, i + k, pieces[k])
  }

  lemma HeardAhead(l: Locale, w: string, start: nat, i: nat, s: string, n: nat, rest: seq<string>)
    requires i < n && PieceIs(l, w, start, i, s) && PiecesHeard(l, w, start, n, rest)
    requires forall p | i < p < n :: !Free(l, w, start, p)
    ensures PiecesHeard(l, w, start, i, [s] + Blanks(n - i - 1) + rest)
  {
    hide Free, Says;
    var pieces := [s] + Blanks(n - i - 1) + rest;
    forall k | 0 <= k < |pieces|
      ensures PieceIs(l, w, start, i + k, pieces[k])
    {
      if k >= n - i {
        assert pieces[k] == rest[k - (n - i)];
        assert i + k == n + (k - (n - i));
      } else if k > 0 {
        assert pieces[k] == "" && !Free(l, w, start, i + k);
      }
    }
  }

  lemma {:induction false} PiecesAreHeard(l: Locale, w: string, start: nat, i: nat)
    requires Latin(l) && IsWord(w) && start <= i <= |w| && Free(l, w, start, i)
    ensures PiecesHeard(l, w, start, i, PiecesFrom(l, w, i))
    decreases |w| - i
  {
    if i < |w| {
      hide Rule, WindowAt, Free, Says, Latin, Around, UsesUp, PiecesHeard, Blanks;
      RuleSays(l, w, i);
      SkipStaysInside(l, w, i);
      FreeStep(l, w, start, i);
      var r := Rule(l, WindowAt(l, w, i));
      var n := i + 1 + r.skip;
      PiecesAreHeard(l, w, start, n);
      HeardAhead(l, w, start, i, r.emit, n, PiecesFrom(l, w, n));
    }
  }

  lemma StartIsFree(l: Locale, w: string, start: nat)
    ensures Free(l, w, start, start)
  {
  }

  // The position of the first letter, and whether there is one.
  ghost predicate IsFirstLetter(l: Locale, w: string, i: nat) {
    i < |w| && l.alpha(Letter(l, w, i)) && forall k | 0 <= k < i :: !l.alpha(Letter(l, w, k))
  }

  // What every letter of a word contributes, if its first letter is at position i.
  ghost predicate PiecesOf(l: Locale, w: string, i: nat, pieces: seq<string>) {
    var first, second := Letter(l, w, i), Letter(l, w, i + 1);
    var start := i + BeginningLength(first, second);
    && |pieces| == |w| && start <= |w|
    && (forall p | 0 <= p < start && p < |w| && p != i :: pieces[p] == "")
    && (i < start ==> BeginningSays(first, second, pieces[i]))
    && PiecesHeard(l, w, start, start, pieces[start..])
  }

  // The code of a word, letter by letter: nothing before the first letter, what its beginning says, and then what is
  // heard at every letter that no letter before it uses up. A word without letters has no code.
  lemma PhonemesComeFromLetters(l: Locale, w: string) returns (i: nat, pieces: seq<string>)
    requires Latin(l) && IsWord(w)
    ensures Code(l, w) == Flatten(pieces)
    ensures if exists k | 0 <= k < |w| :: l.alpha(Letter(l, w, k))
            then IsFirstLetter(l, w, i) && PiecesOf(l, w, i, pieces) else pieces == []
  {
    i := FirstLetter(l, w, 0);
    LettersAreRead(l, w);
    if i == |w| {
      pieces := [];
    } else {
      pieces := CodeInPieces(l, w, i);
    }
  }

  lemma LettersAreRead(l: Locale, w: string)
    requires Sane(l)
    ensures forall k: nat | k <= |w| :: At(l, w, k) == Letter(l, w, k)
  {
  }

  // The pieces before the first letter, of the beginning, and behind it.
  function AllPieces(i: nat, emit: string, skip: nat, rest: seq<string>): seq<string> {
    Blanks(i) + (if skip == 0 then rest else [emit] + Blanks(skip - 1) + rest)
  }

  lemma AllPiecesFlatten(i: nat, emit: string, skip: nat, rest: seq<string>)
    requires skip == 0 ==> emit == ""
    ensures Flatten(AllPieces(i, emit, skip, rest)) == emit + Flatten(rest)
  {
    hide Flatten, Blanks;
    FlattenEmpty(i, if skip == 0 then rest else [emit] + Blanks(skip - 1) + rest);
    if skip > 0 {
      FlattenHead(emit, skip - 1, rest);
    }
  }

  lemma AllPiecesPlaced(i: nat, emit: string, skip: nat, rest: seq<string>)
    ensures var pieces := AllPieces(i, emit, skip, rest);
            && |pieces| == i + skip + |rest| && pieces[i + skip..] == rest
            && (forall p | 0 <= p < i + skip && p != i :: pieces[p] == "")
            && (skip > 0 ==> pieces[i] == emit)
  {
  }

  lemma PiecesFit(l: Locale, w: string, i: nat, emit: string, skip: nat, rest: seq<string>)
    requires i < |w| && i + skip <= |w| && skip == BeginningLength(Letter(l, w, i), Letter(l, w, i + 1))
    requires BeginningSays(Letter(l, w, i), Letter(l, w, i + 1), emit) && PiecesHeard(l, w, i + skip, i + skip, rest)
    requires |rest| == |w| - i - skip
    ensures PiecesOf(l, w, i, AllPieces(i, emit, skip, rest))
  {
    hide AllPieces, BeginningSays, PiecesHeard, BeginningLength;
    AllPiecesPlaced(i, emit, skip, rest);
  }

  function FirstPhones(l: Locale, w: string, i: nat): Phones
    requires i < |w|
  {
    Initial(l, At(l, w, i), At(l, w, i + 1))
  }

  lemma FirstTwoLetters(l: Locale, w: string, i: nat)
    requires Latin(l) && i < |w|
    ensures At(l, w, i) == Letter(l, w, i) && At(l, w, i + 1) == Letter(l, w, i + 1)
    ensures l.upper(At(l, w, i + 1)) == At(l, w, i + 1) && Sane(l)
  {
  }

  lemma FirstSays(l: Locale, w: string, i: nat)
    requires Latin(l) && IsWord(w) && i == FirstLetter(l, w, 0) < |w|
    ensures var r := FirstPhones(l, w, i);
            && BeginningSays(Letter(l, w, i), Letter(l, w, i + 1), r.emit)
            && r.skip == BeginningLength(Letter(l, w, i), Letter(l, w, i + 1))
            && i + r.skip <= |w| && Code(l, w) == r.emit + CodeFrom(l, w, i + r.skip)
  {
    hide Initial, Letter, At, BeginningSays, BeginningLength, Code, CodeFrom, FirstLetter, Latin, Sane;
    FirstTwoLetters(l, w, i);
    InitialSays(l, At(l, w, i), At(l, w, i + 1));
    CodeStarts(l, w);
  }

  lemma CodeInPieces(l: Locale, w: string, i: nat) returns (pieces: seq<string>)
    requires Latin(l) && IsWord(w) && i == FirstLetter(l, w, 0) < |w|
    ensures Code(l, w) == Flatten(pieces) && PiecesOf(l, w, i, pieces)
  {
    hide *;
    FirstTwoLetters(l, w, i);
    FirstSays(l, w, i);
    var r := FirstPhones(l, w, i);
    var start := i + r.skip;
    var rest := PiecesFrom(l, w, start);
    PiecesAreCode(l, w, start);
    StartIsFree(l, w, start);
    PiecesAreHeard(l, w, start, start);
    PiecesFit(l, w, i, r.emit, r.skip, rest);
    if r.skip == 0 {
      NothingSaid(Letter(l, w, i), Letter(l, w, i + 1), r.emit);
    }
    pieces := AllPieces(i, r.emit, r.skip, rest);
    AllPiecesFlatten(i, r.emit, r.skip, rest);
  }

  lemma SomeMember(s: string)
    requires s != ""
    ensures exists c :: c in s
  {
    assert s[0] in s;
  }

  lemma NothingSaid(first: char, second: char, s: string)
    requires BeginningSays(first, second, s) && BeginningLength(first, second) == 0
    ensures s == ""
  {
    assert forall c :: !BeginsAs(first, second, c);
    if s != "" {
      SomeMember(s);
      assert false;
    }
  }
}
