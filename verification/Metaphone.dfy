/**
  Metaphone: an English word becomes a string of phonemes, cut at a requested length.
 */
module Metaphone {
  import opened Wrappers

  const MAX_METAPHONE_STRLEN := 255
  const SH := 'X'
  const TH := '0'

  datatype Error = ArgumentTooLong | OutputTooLong | OutputEmpty | Internal

  // isalpha and toupper of the locale in use.
  datatype Locale = Locale(alpha: char -> bool, upper: char -> char)

  ghost predicate Sane(l: Locale) {
    !l.alpha('\0') && forall c :: l.upper(c) == '\0' <==> c == '\0'
  }

  // A C string without its terminator.
  predicate IsWord(w: string) {
    '\0' !in w
  }

  /* Letter classes */

  const CODES := [1, 16, 4, 16, 9, 2, 4, 16, 9, 2, 0, 2, 2, 2, 1, 4, 0, 2, 4, 4, 1, 0, 0, 0, 8, 0]

  function GetCode(l: Locale, c: char): nat {
    if l.alpha(c) && 'A' <= l.upper(c) <= 'Z' then CODES[(l.upper(c) - 'A') as int] else 0
  }

  predicate HasFlag(l: Locale, c: char, flag: nat)
    requires flag > 0
  {
    GetCode(l, c) / flag % 2 == 1
  }

  predicate IsVowel(l: Locale, c: char) { HasFlag(l, c, 1) }
  predicate AffectH(l: Locale, c: char) { HasFlag(l, c, 4) }
  predicate MakeSoft(l: Locale, c: char) { HasFlag(l, c, 8) }
  predicate NoGhToF(l: Locale, c: char) { HasFlag(l, c, 16) }

  /* Reading the word; the terminator at |w| is the last position that may be read */

  function At(l: Locale, w: string, i: nat): (c: char)
    requires i <= |w|
  {
    l.upper(if i == |w| then '\0' else w[i])
  }

  function LookBack(l: Locale, w: string, i: nat, n: nat): char
    requires i <= |w|
  {
    if i >= n then At(l, w, i - n) else '\0'
  }

  function LookAhead(l: Locale, w: string, i: nat, n: nat): char
    requires i <= |w|
  {
    At(l, w, if i + n <= |w| then i + n else |w|)
  }

  // All letters that decide what the one at position i becomes.
  datatype Window = Window(curr: char, prev: char, next: char, afterNext: char,
                           back3: char, back4: char, ahead2: char, ahead3: char)

  function WindowAt(l: Locale, w: string, i: nat): Window
    requires i < |w|
  {
    var next := At(l, w, i + 1);
    Window(At(l, w, i), LookBack(l, w, i, 1), next, LookAhead(l, w, i, 2),
           LookBack(l, w, i, 3), LookBack(l, w, i, 4), LookAhead(l, w, i, 2), LookAhead(l, w, i, 3))
  }

  // Steps over the word until n letters or the terminator.
  method Lookahead(l: Locale, w: string, i: nat, howFar: nat) returns (c: char)
    requires IsWord(w) && i <= |w|
    ensures c == LookAhead(l, w, i, howFar)
  {
    var idx := 0;
    while i + idx < |w| && idx < howFar
      invariant 0 <= idx <= howFar && i + idx <= |w|
    {
      idx := idx + 1;
    }
    c := At(l, w, i + idx);
  }

  method ReadWindow(l: Locale, w: string, i: nat) returns (v: Window)
    requires Sane(l) && IsWord(w) && i < |w|
    ensures v == WindowAt(l, w, i)
  {
    var next := At(l, w, i + 1);
    var afterNext := '\0';
    if next != '\0' {
      afterNext := At(l, w, i + 2);
    }
    var ahead2 := Lookahead(l, w, i, 2);
    var ahead3 := Lookahead(l, w, i, 3);
    v := Window(At(l, w, i), LookBack(l, w, i, 1), next, afterNext,
                LookBack(l, w, i, 3), LookBack(l, w, i, 4), ahead2, ahead3);
  }

  /* The rules */

  // The phonemes a letter becomes and how many letters behind it are used up with it.
  datatype Phones = Phones(emit: string, skip: nat)

  // The first letter of the word; skip counts the letters used up, itself included.
  function Initial(l: Locale, curr: char, next: char): Phones {
    match curr
    case 'A' => if next == 'E' then Phones("E", 2) else Phones("A", 1)
    case 'G' => if next == 'N' then Phones("N", 2) else Phones("", 0)
    case 'K' => if next == 'N' then Phones("N", 2) else Phones("", 0)
    case 'P' => if next == 'N' then Phones("N", 2) else Phones("", 0)
    case 'W' =>
      if next == 'H' || next == 'R' then Phones([next], 2)
      else if IsVowel(l, next) then Phones("W", 2)
      else Phones("", 0)
    case 'X' => Phones("S", 1)
    case _ => if curr == 'E' || curr == 'I' || curr == 'O' || curr == 'U' then Phones([curr], 1) else Phones("", 0)
  }

  function RuleC(l: Locale, v: Window): Phones {
    if MakeSoft(l, v.next) then
      if v.afterNext == 'A' && v.next == 'I' then Phones([SH], 0)
      else if v.prev == 'S' then Phones("", 0)
      else Phones("S", 0)
    else if v.next == 'H' then
      Phones(if v.afterNext == 'R' || v.prev == 'S' then "K" else [SH], 1)
    else Phones("K", 0)
  }

  function RuleG(l: Locale, v: Window): Phones {
    if v.next == 'H' then
      if !(NoGhToF(l, v.back3) || v.back4 == 'H') then Phones("F", 1) else Phones("", 0)
    else if v.next == 'N' then
      if !l.alpha(v.afterNext) || (v.afterNext == 'E' && v.ahead3 == 'D') then Phones("", 0) else Phones("K", 0)
    else if MakeSoft(l, v.next) && v.prev != 'G' then Phones("J", 0)
    else Phones("K", 0)
  }

  function RuleS(v: Window): Phones {
    if v.next == 'I' && (v.afterNext == 'O' || v.afterNext == 'A') then Phones([SH], 0)
    else if v.next == 'H' then Phones([SH], 1)
    else if v.next == 'C' && v.ahead2 == 'H' && v.ahead3 == 'W' then Phones([SH], 2)
    else Phones("S", 0)
  }

  function RuleT(v: Window): Phones {
    if v.next == 'I' && (v.afterNext == 'O' || v.afterNext == 'A') then Phones([SH], 0)
    else if v.next == 'H' then Phones([TH], 1)
    else Phones("T", 0)
  }

  function When(b: bool, c: char): Phones {
    Phones(if b then [c] else "", 0)
  }

  // A letter behind the first one.
  function Rule(l: Locale, v: Window): Phones {
    if !l.alpha(v.curr) then Phones("", 0)
    else if v.curr == v.prev && v.curr != 'C' then Phones("", 0)
    else
      match v.curr
      case 'B' => When(v.prev != 'M', 'B')
      case 'C' => RuleC(l, v)
      case 'D' => if v.next == 'G' && MakeSoft(l, v.afterNext) then Phones("J", 1) else Phones("T", 0)
      case 'G' => RuleG(l, v)
      case 'H' => When(IsVowel(l, v.next) && !AffectH(l, v.prev), 'H')
      case 'K' => When(v.prev != 'C', 'K')
      case 'P' => Phones(if v.next == 'H' then "F" else "P", 0)
      case 'Q' => Phones("K", 0)
      case 'S' => RuleS(v)
      case 'T' => RuleT(v)
      case 'V' => Phones("F", 0)
      case 'W' => When(IsVowel(l, v.next), 'W')
      case 'X' => Phones("KS", 0)
      case 'Y' => When(IsVowel(l, v.next), 'Y')
      case 'Z' => Phones("S", 0)
      case _ => When(v.curr in "FJLMNR", v.curr)
  }

  /* The code of a word, without a limit */

  // Position of the first letter, or of the terminator.
  function FirstLetter(l: Locale, w: string, i: nat): (n: nat)
    requires i <= |w|
    ensures i <= n <= |w|
    ensures n < |w| ==> l.alpha(At(l, w, n))
    ensures forall k | i <= k < n :: !l.alpha(At(l, w, k))
    decreases |w| - i
  {
    if i == |w| || l.alpha(At(l, w, i)) then i else FirstLetter(l, w, i + 1)
  }

  // A rule uses up only letters that are there.
  lemma SkipStaysInside(l: Locale, w: string, i: nat)
    requires Sane(l) && IsWord(w) && i < |w|
    ensures i + 1 + Rule(l, WindowAt(l, w, i)).skip <= |w|
    ensures |Rule(l, WindowAt(l, w, i)).emit| <= 2
    ensures i + Initial(l, At(l, w, i), At(l, w, i + 1)).skip <= |w|
    ensures |Initial(l, At(l, w, i), At(l, w, i + 1)).emit| <= 1
  {
  }

  function CodeFrom(l: Locale, w: string, i: nat): string
    requires i <= |w|
    decreases |w| - i
  {
    if i == |w| then ""
    else
      var r := Rule(l, WindowAt(l, w, i));
      r.emit + if i + 1 + r.skip <= |w| then CodeFrom(l, w, i + 1 + r.skip) else ""
  }

  function Code(l: Locale, w: string): string {
    var i := FirstLetter(l, w, 0);
    if i == |w| then ""
    else
      var r := Initial(l, At(l, w, i), At(l, w, i + 1));
      r.emit + if i + r.skip <= |w| then CodeFrom(l, w, i + r.skip) else ""
  }

  function Take(s: string, k: nat): string {
    if |s| <= k then s else s[..k]
  }

  /* The bounded run */

  // The buffer holds s and the terminator.
  ghost predicate Holds(buf: array<char>, s: string)
    reads buf
  {
    |s| < buf.Length && buf[..|s|] == s && buf[|s|] == '\0'
  }

  // Writes what fits of the phonemes e behind position p.
  method Phonize(buf: array<char>, p: nat, e: string, limit: nat) returns (q: nat)
    requires p < limit < buf.Length && |e| <= 2
    modifies buf
    ensures p <= q <= limit
    ensures buf[..q] == Take(old(buf[..p]) + e, limit)
  {
    q := p;
    if |e| > 0 {
      buf[q] := e[0];
      q := q + 1;
      if |e| > 1 && q < limit {
        buf[q] := e[1];
        q := q + 1;
      }
    }
  }

  lemma TakeStep(a: string, e: string, more: string, k: nat)
    ensures Take(Take(a + e, k) + more, k) == Take(a + (e + more), k)
  {
    assert a + (e + more) == (a + e) + more;
  }

  // For every word and every limit, the run writes exactly the first `limit` phonemes of the unlimited code
  // and the terminator, into limit + 1 bytes.
  method MetaphoneInternal(l: Locale, word: string, maxPhonemes: int) returns (r: Result<array<char>, Error>)
    requires Sane(l) && IsWord(word)
    ensures r.Err? <==> maxPhonemes <= 0 || word == ""
    ensures r.Ok? ==> fresh(r.value) && r.value.Length == maxPhonemes + 1
    ensures r.Ok? ==> Holds(r.value, Take(Code(l, word), maxPhonemes))
  {
    if maxPhonemes <= 0 || word == "" {
      return Err(Internal);
    }
    var buf := new char[maxPhonemes + 1];
    var wIdx := 0;
    while !l.alpha(At(l, word, wIdx))
      invariant 0 <= wIdx <= |word|
      invariant FirstLetter(l, word, wIdx) == FirstLetter(l, word, 0)
      decreases |word| - wIdx
    {
      if At(l, word, wIdx) == '\0' {
        buf[0] := '\0';
        return Ok(buf);
      }
      wIdx := wIdx + 1;
    }
    assert wIdx < |word|;
    PhonizeWord(l, word, wIdx, buf, maxPhonemes);
    return Ok(buf);
  }

  lemma CodeStarts(l: Locale, w: string)
    requires Sane(l) && IsWord(w) && FirstLetter(l, w, 0) < |w|
    ensures var i := FirstLetter(l, w, 0);
            var r := Initial(l, At(l, w, i), At(l, w, i + 1));
            i + r.skip <= |w| && |r.emit| <= 1 && Code(l, w) == r.emit + CodeFrom(l, w, i + r.skip)
  {
    SkipStaysInside(l, w, FirstLetter(l, w, 0));
  }

  method PhonizeWord(l: Locale, word: string, from: nat, buf: array<char>, limit: nat)
    requires Sane(l) && IsWord(word) && from == FirstLetter(l, word, 0) < |word| && 0 < limit < buf.Length
    modifies buf
    ensures Holds(buf, Take(Code(l, word), limit))
  {
    var curr, next := At(l, word, from), At(l, word, from + 1);
    hide *;
    CodeStarts(l, word);
    var first := Initial(l, curr, next);
    var p := Phonize(buf, 0, first.emit, limit);
    TakeStep([], first.emit, CodeFrom(l, word, from + first.skip), limit);
    assert [] + Code(l, word) == Code(l, word);
    p := PhonizeRest(l, word, from + first.skip, buf, p, limit);
    PutTerminator(buf, p, Take(Code(l, word), limit));
  }

  method PutTerminator(buf: array<char>, p: nat, ghost s: string)
    requires p < buf.Length && buf[..p] == s
    modifies buf
    ensures Holds(buf, s)
  {
    buf[p] := '\0';
    assert buf[..p] == s;
  }

  method PhonizeRest(l: Locale, word: string, start: nat, buf: array<char>, p0: nat, limit: nat) returns (p: nat)
    requires Sane(l) && IsWord(word) && start <= |word| && p0 <= limit < buf.Length
    modifies buf
    ensures p <= limit && buf[..p] == Take(old(buf[..p0]) + CodeFrom(l, word, start), limit)
  {
    hide Rule, WindowAt, CodeFrom;
    var wIdx := start;
    p := p0;
    ghost var goal := Take(buf[..p0] + CodeFrom(l, word, start), limit);
    while wIdx < |word| && p < limit
      invariant wIdx <= |word| && p <= limit
      invariant Take(buf[..p] + CodeFrom(l, word, wIdx), limit) == goal
      decreases |word| - wIdx
    {
      var v := ReadWindow(l, word, wIdx);
      var rule := Rule(l, v);
      SkipStaysInside(l, word, wIdx);
      CodeStep(l, word, wIdx);
      TakeStep(buf[..p], rule.emit, CodeFrom(l, word, wIdx + 1 + rule.skip), limit);
      p := Phonize(buf, p, rule.emit, limit);
      wIdx := wIdx + 1 + rule.skip;
    }
    CodeEnds(l, word);
  }

  lemma CodeStep(l: Locale, w: string, i: nat)
    requires Sane(l) && IsWord(w) && i < |w|
    ensures var r := Rule(l, WindowAt(l, w, i));
            i + 1 + r.skip <= |w| && CodeFrom(l, w, i) == r.emit + CodeFrom(l, w, i + 1 + r.skip)
  {
    SkipStaysInside(l, w, i);
  }

  lemma CodeEnds(l: Locale, w: string)
    ensures CodeFrom(l, w, |w|) == ""
  {
  }

  // The SQL function with its argument checks.
  method Metaphone(l: Locale, str: string, reqlen: int) returns (r: Result<string, Error>)
    requires Sane(l) && IsWord(str)
    ensures r == MetaphoneResult(l, str, reqlen)
  {
    if |str| == 0 {
      return Ok("");
    }
    if |str| > MAX_METAPHONE_STRLEN {
      return Err(ArgumentTooLong);
    }
    if reqlen > MAX_METAPHONE_STRLEN {
      return Err(OutputTooLong);
    }
    if reqlen <= 0 {
      return Err(OutputEmpty);
    }
    var metaph := MetaphoneInternal(l, str, reqlen);
    CodeHasNoTerminator(l, str);
    var text := CString(metaph.value, Take(Code(l, str), reqlen));
    return Ok(text);
  }

  // The text up to the terminator.
  method CString(buf: array<char>, ghost s: string) returns (text: string)
    requires Holds(buf, s) && IsWord(s)
    ensures text == s
  {
    var n := 0;
    while buf[n] != '\0'
      invariant 0 <= n <= |s|
      decreases |s| - n
    {
      assert buf[..|s|][n] == s[n] || n == |s|;
      n := n + 1;
    }
    text := buf[..n];
  }

  ghost function MetaphoneResult(l: Locale, str: string, reqlen: int): Result<string, Error> {
    if |str| == 0 then Ok("")
    else if |str| > MAX_METAPHONE_STRLEN then Err(ArgumentTooLong)
    else if reqlen > MAX_METAPHONE_STRLEN then Err(OutputTooLong)
    else if reqlen <= 0 then Err(OutputEmpty)
    else Ok(Take(Code(l, str), reqlen))
  }

  /* What the code looks like */

  predicate Consonant(c: char) {
    || c == 'B' || c == 'F' || c == 'H' || c == 'J' || c == 'K' || c == 'L' || c == 'M' || c == 'N'
    || c == 'P' || c == 'R' || c == 'S' || c == 'T' || c == 'W' || c == 'Y' || c == SH || c == TH
  }

  predicate Vowel(c: char) {
    c == 'A' || c == 'E' || c == 'I' || c == 'O' || c == 'U'
  }

  predicate AllConsonants(s: string) {
    forall c | c in s :: Consonant(c)
  }

  lemma RuleEmitsConsonants(l: Locale, v: Window)
    ensures AllConsonants(Rule(l, v).emit)
  {
    assert AllConsonants(RuleC(l, v).emit);
    assert AllConsonants(RuleG(l, v).emit);
    assert AllConsonants(RuleS(v).emit);
    assert AllConsonants(RuleT(v).emit);
    hide RuleC, RuleG, RuleS, RuleT, HasFlag;
  }

  lemma {:induction false} RestIsConsonants(l: Locale, w: string, i: nat)
    requires i <= |w|
    ensures AllConsonants(CodeFrom(l, w, i))
    decreases |w| - i
  {
    hide Rule, WindowAt, AllConsonants;
    NoPhonemes();
    if i < |w| {
      var r := Rule(l, WindowAt(l, w, i));
      RuleEmitsConsonants(l, WindowAt(l, w, i));
      var more := "";
      if i + 1 + r.skip <= |w| {
        RestIsConsonants(l, w, i + 1 + r.skip);
        more := CodeFrom(l, w, i + 1 + r.skip);
      }
      MoreConsonants(r.emit, more);
    }
  }

  lemma NoPhonemes()
    ensures AllConsonants("")
  {
  }

  lemma MoreConsonants(a: string, b: string)
    requires AllConsonants(a) && AllConsonants(b)
    ensures AllConsonants(a + b)
  {
    hide Consonant;
  }

  // Only the first phoneme can be a vowel.
  lemma OnlyFirstIsVowel(l: Locale, w: string)
    ensures Code(l, w) != "" ==> AllConsonants(Code(l, w)[1..])
    ensures Code(l, w) != "" ==> Consonant(Code(l, w)[0]) || Vowel(Code(l, w)[0])
  {
    var i := FirstLetter(l, w, 0);
    if i < |w| {
      var r := Initial(l, At(l, w, i), At(l, w, i + 1));
      InitialEmits(l, At(l, w, i), At(l, w, i + 1));
      hide Initial, At, Consonant;
      if i + r.skip <= |w| {
        RestIsConsonants(l, w, i + r.skip);
      }
    }
  }

  lemma InitialEmits(l: Locale, curr: char, next: char)
    ensures |Initial(l, curr, next).emit| <= 1
    ensures forall c | c in Initial(l, curr, next).emit :: Consonant(c) || Vowel(c)
  {
  }

  lemma CodeHasNoTerminator(l: Locale, w: string)
    ensures IsWord(Code(l, w))
  {
    OnlyFirstIsVowel(l, w);
    var code := Code(l, w);
    if code != "" {
      assert code == [code[0]] + code[1..];
    }
  }

  // A shorter limit gives a prefix of what a longer one gives.
  lemma ShorterLimitIsPrefix(l: Locale, str: string, k: int, K: int)
    requires k <= K && MetaphoneResult(l, str, k).Ok? && MetaphoneResult(l, str, K).Ok?
    ensures MetaphoneResult(l, str, k).value <= MetaphoneResult(l, str, K).value
    ensures str != "" ==> MetaphoneResult(l, str, k).value == Take(MetaphoneResult(l, str, K).value, k)
  {
  }

  /* Upper and lower case give the same code */

  function Raised(l: Locale, w: string): string {
    seq(|w|, i requires 0 <= i < |w| => l.upper(w[i]))
  }

  lemma {:induction false} CodeFromRaised(l: Locale, w: string, i: nat)
    requires i <= |w| && l.upper('\0') == '\0' && forall c :: l.upper(l.upper(c)) == l.upper(c)
    ensures CodeFrom(l, Raised(l, w), i) == CodeFrom(l, w, i)
    decreases |w| - i
  {
    if i < |w| {
      assert WindowAt(l, Raised(l, w), i) == WindowAt(l, w, i);
      var r := Rule(l, WindowAt(l, w, i));
      hide Rule, WindowAt;
      if i + 1 + r.skip <= |w| {
        CodeFromRaised(l, w, i + 1 + r.skip);
      }
    }
  }

  lemma {:induction false} FirstLetterRaised(l: Locale, w: string, i: nat)
    requires i <= |w| && forall c :: l.upper(l.upper(c)) == l.upper(c)
    ensures FirstLetter(l, Raised(l, w), i) == FirstLetter(l, w, i)
    decreases |w| - i
  {
    if i < |w| {
      FirstLetterRaised(l, w, i + 1);
    }
  }

  lemma CaseDoesNotMatter(l: Locale, w: string)
    requires Sane(l) && forall c :: l.upper(l.upper(c)) == l.upper(c)
    ensures Code(l, Raised(l, w)) == Code(l, w)
  {
    FirstLetterRaised(l, w, 0);
    var i := FirstLetter(l, w, 0);
    if i < |w| {
      var r := Initial(l, At(l, w, i), At(l, w, i + 1));
      if i + r.skip <= |w| {
        CodeFromRaised(l, w, i + r.skip);
      }
    }
  }
}
