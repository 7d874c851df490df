/**
  The two compilations of levenshtein.cpp: the full two-row program and the
  bounded one, which fills only a sliding band of each row.
 */
module Levenshtein {
  import opened Text
  import opened Wrappers
  import opened EditDistance

  const MAX_STRLEN := 255

  datatype Outcome = Distance(d: int) | TooLong

  type CharProblem = Problem<seq<byte>>

  function TextProblem(mblen: MbLen, s: seq<byte>, t: seq<byte>, c: Costs): CharProblem
    requires WellEncoded(mblen, s) && WellEncoded(mblen, t)
  {
    Problem(Chars(mblen, s), Chars(mblen, t), c)
  }

  /* What a stored cell promises */

  // A negative bound means that every cell is exact. Otherwise a cell is never below the
  // smaller of its true value and bound + 1, and exact if a path within the bound uses it.
  ghost predicate Good(p: CharProblem, bound: int, i: nat, j: nat, v: int)
    requires i <= |p.s| && j <= |p.t|
  {
    if bound < 0 then v == p.D(i, j)
    else v >= Min(p.D(i, j), bound + 1) && (p.F(i, j) <= bound ==> v == p.D(i, j))
  }

  ghost predicate Dead(p: CharProblem, bound: int, i: nat, j: nat)
    requires i <= |p.s| && j <= |p.t|
  {
    bound >= 0 && p.F(i, j) > bound
  }

  ghost predicate DeadOutside(p: CharProblem, bound: int, j: nat, start: nat, stop: nat)
    requires j <= |p.t|
  {
    forall i: nat | i <= |p.s| && !(start <= i < stop) :: Dead(p, bound, i, j)
  }

  ghost predicate Usable(p: CharProblem, bound: int) {
    bound >= 0 ==> p.c.NonNegative()
  }

  lemma CellIsGood(p: CharProblem, bound: int, i: nat, j: nat, up: int, left: int, diag: int)
    requires 0 < i <= |p.s| && 0 < j <= |p.t| && Usable(p, bound)
    requires Good(p, bound, i, j - 1, up) && Good(p, bound, i - 1, j, left) && Good(p, bound, i - 1, j - 1, diag)
    ensures Good(p, bound, i, j, Min(Min(up + p.c.ins, left + p.c.del), diag + p.Diagonal(i, j)))
  {
    hide Problem.D;
    Edges(p, i, j);
    var m := BestMove(p, i, j);
    if bound >= 0 {
      ResidualSteps(p, i, j);
    }
  }

  lemma BandStepsDown(p: CharProblem, bound: int, j: nat, start: nat, stop: nat, stop': nat)
    requires 0 < j <= |p.t| && Usable(p, bound)
    requires DeadOutside(p, bound, j - 1, start, stop)
    requires stop' == if stop <= |p.s| then stop + 1 else stop
    ensures DeadOutside(p, bound, j, start, stop')
  {
    forall i: nat | i <= |p.s| && !(start <= i < stop')
      ensures Dead(p, bound, i, j)
    {
      assert Dead(p, bound, i, j - 1);
      if i > 0 {
        assert Dead(p, bound, i - 1, j - 1);
      }
      TotalsGrowDownwards(p, i, j);
    }
  }

  /* Characters */

  // Compares backwards, byte by byte.
  method RestOfCharSame(s: seq<byte>, x: nat, t: seq<byte>, y: nat, length: nat) returns (same: bool)
    requires x + length <= |s| && y + length <= |t|
    ensures same <==> s[x..x + length] == t[y..y + length]
  {
    ghost var a, b := s[x..x + length], t[y..y + length];
    var len := length;
    while len > 0
      invariant 0 <= len <= length
      invariant forall k | len <= k < length :: a[k] == b[k]
    {
      len := len - 1;
      if s[x + len] != t[y + len] {
        assert a[len] != b[len];
        return false;
      }
    }
    return true;
  }

  // Last byte first, then the lengths, then the rest.
  method CharSame(s: seq<byte>, x: nat, xLen: nat, t: seq<byte>, y: nat, yLen: nat) returns (same: bool)
    requires 0 < xLen && x + xLen <= |s| && 0 < yLen && y + yLen <= |t|
    ensures same <==> s[x..x + xLen] == t[y..y + yLen]
  {
    var a, b := s[x..x + xLen], t[y..y + yLen];
    assert a[xLen - 1] == s[x + xLen - 1] && b[yLen - 1] == t[y + yLen - 1];
    if s[x + xLen - 1] == t[y + yLen - 1] && xLen == yLen {
      if xLen == 1 {
        assert a == [s[x]] && b == [t[y]];
        same := true;
      } else {
        same := RestOfCharSame(s, x, t, y, xLen);
      }
    } else {
      same := false;
    }
  }

  // The cached character lengths, with a final zero; None when all characters are single bytes.
  ghost predicate LengthsOf(mblen: MbLen, b: seq<byte>, lens: Option<seq<nat>>)
    requires WellEncoded(mblen, b)
  {
    var cs := Chars(mblen, b);
    match lens
    case None => |cs| == |b|
    case Some(ls) => |ls| == |cs| + 1 && forall k | 0 <= k < |cs| :: ls[k] == |cs[k]|
  }

  method CacheLengths(mblen: MbLen, s: seq<byte>, t: seq<byte>) returns (lens: Option<seq<nat>>)
    requires WellEncoded(mblen, s) && WellEncoded(mblen, t)
    ensures LengthsOf(mblen, s, lens)
    ensures lens.None? <==> |Chars(mblen, s)| == |s| && |Chars(mblen, t)| == |t|
  {
    lens := None;
    ghost var cs := Chars(mblen, s);
    var m := |Chars(mblen, s)|;
    if m != |s| || |Chars(mblen, t)| != |t| {
      var a := new nat[m + 1];
      var cp := 0;
      var i := 0;
      while i < m
        invariant i <= m && cp == Offset(mblen, s, i)
        invariant forall k | 0 <= k < i :: a[k] == |cs[k]|
      {
        CharAtOffset(mblen, s, i);
        a[i] := mblen(s[cp..]);
        cp := cp + a[i];
        i := i + 1;
      }
      a[i] := 0;
      lens := Some(a[..]);
    }
  }

  // How far a pointer into s moves past character k.
  method CharLength(ghost mblen: MbLen, ghost s: seq<byte>, lens: Option<seq<nat>>, k: nat) returns (n: nat)
    requires WellEncoded(mblen, s) && LengthsOf(mblen, s, lens) && k < |Chars(mblen, s)|
    ensures n == |Chars(mblen, s)[k]| && n > 0
    ensures Offset(mblen, s, k) + n == Offset(mblen, s, k + 1)
  {
    CharAtOffset(mblen, s, k);
    if lens.Some? {
      n := lens.value[k];
    } else {
      SingleByteChars(mblen, s, k);
      n := 1;
    }
  }

  // The test inside the inner loop, at pointers x into s and y into t: multibyte path and fast path.
  method SameAt(ghost mblen: MbLen, s: seq<byte>, t: seq<byte>, lens: Option<seq<nat>>,
                ghost i: nat, ghost j: nat, x: nat, xLen: nat, y: nat, yLen: nat) returns (same: bool)
    requires WellEncoded(mblen, s) && WellEncoded(mblen, t)
    requires lens.None? ==> |Chars(mblen, s)| == |s| && |Chars(mblen, t)| == |t|
    requires i < |Chars(mblen, s)| && j < |Chars(mblen, t)|
    requires x == Offset(mblen, s, i) && xLen == |Chars(mblen, s)[i]|
    requires y == Offset(mblen, t, j) && yLen == |Chars(mblen, t)[j]|
    ensures same <==> Chars(mblen, s)[i] == Chars(mblen, t)[j]
  {
    CharAtOffset(mblen, s, i);
    CharAtOffset(mblen, t, j);
    if lens.Some? {
      same := CharSame(s, x, xLen, t, y, yLen);
    } else {
      SingleByteChars(mblen, s, i);
      SingleByteChars(mblen, t, j);
      same := s[x] == t[y];
    }
  }

  /* One row */

  // Every pointer and length the row loop starts from.
  ghost predicate RowReady(mblen: MbLen, s: seq<byte>, t: seq<byte>, lens: Option<seq<nat>>,
                           sData: nat, i: nat, y: nat, yLen: nat, j: nat)
  {
    && WellEncoded(mblen, s) && WellEncoded(mblen, t)
    && LengthsOf(mblen, s, lens)
    && (lens.None? ==> |Chars(mblen, t)| == |t|)
    && i < |Chars(mblen, s)| && sData == Offset(mblen, s, i)
    && j < |Chars(mblen, t)| && y == Offset(mblen, t, j) && yLen == |Chars(mblen, t)[j]|
  }

  method FillRow(ghost mblen: MbLen, ghost p: CharProblem, ghost bound: int, ghost j: nat,
                 s: seq<byte>, t: seq<byte>, c: Costs, lens: Option<seq<nat>>,
                 sData: nat, y: nat, yLen: nat, prev: array<int>, curr: array<int>, from: nat, stop: nat)
    requires 0 < from && 0 < j && RowReady(mblen, s, t, lens, sData, from - 1, y, yLen, j - 1)
    requires p == TextProblem(mblen, s, t, c) && Usable(p, bound)
    requires prev != curr && prev.Length == curr.Length == |p.s| + 1
    requires from <= stop <= |p.s| + 1
    requires forall i | from - 1 <= i < stop :: Good(p, bound, i, j - 1, prev[i])
    requires Good(p, bound, from - 1, j, curr[from - 1])
    modifies curr
    ensures forall i | 0 <= i < from || stop <= i < curr.Length :: curr[i] == old(curr[i])
    ensures forall i | from <= i < stop :: Good(p, bound, i, j, curr[i])
  {
    hide Problem.D;
    var x := sData;
    var i := from;
    while i < stop
      invariant from <= i <= stop && x == Offset(mblen, s, i - 1)
      invariant forall k | 0 <= k < from || stop <= k < curr.Length :: curr[k] == old(curr[k])
      invariant forall k | from - 1 <= k < i :: Good(p, bound, k, j, curr[k])
    {
      var ins := prev[i] + c.ins;
      var del := curr[i - 1] + c.del;
      var sub := prev[i - 1];
      var xLen := CharLength(mblen, s, lens, i - 1);
      var same := SameAt(mblen, s, t, lens, i - 1, j - 1, x, xLen, y, yLen);
      if !same {
        sub := sub + c.sub;
      }
      CellIsGood(p, bound, i, j, prev[i], curr[i - 1], prev[i - 1]);
      curr[i] := Min(Min(ins, del), sub);
      x := x + xLen;
      i := i + 1;
    }
  }

  // Row 0: i deletions in cell i.
  method FirstRow(ghost p: CharProblem, ghost bound: int, del: int, prev: array<int>, stop: nat)
    requires stop <= |p.s| + 1 == prev.Length && del == p.c.del
    modifies prev
    ensures forall k | 0 <= k < stop :: Good(p, bound, k, 0, prev[k])
  {
    var i := 0;
    while i < stop
      invariant i <= stop
      invariant forall k | 0 <= k < i :: Good(p, bound, k, 0, prev[k])
    {
      DeletionBorder(p, i);
      prev[i] := i * del;
      i := i + 1;
    }
  }

  // Byte length of the j-th character of t, which starts at y.
  method TargetLength(mblen: MbLen, t: seq<byte>, y: nat, ghost j: nat) returns (yLen: nat)
    requires WellEncoded(mblen, t) && j < |Chars(mblen, t)| && y == Offset(mblen, t, j)
    ensures yLen == |Chars(mblen, t)[j]| && y + yLen == Offset(mblen, t, j + 1)
  {
    CharAtOffset(mblen, t, j);
    if |Chars(mblen, t)| != |t| {
      yLen := mblen(t[y..]);
    } else {
      SingleByteChars(mblen, t, j);
      yLen := 1;
    }
  }

  /* The full program */

  ghost predicate ExceedsMaximum(p: CharProblem) {
    p.s != [] && p.t != [] && (|p.s| > MAX_STRLEN || |p.t| > MAX_STRLEN)
  }

  method LevenshteinInternal(mblen: MbLen, s: seq<byte>, t: seq<byte>, c: Costs) returns (r: Outcome)
    requires WellEncoded(mblen, s) && WellEncoded(mblen, t)
    ensures var p := TextProblem(mblen, s, t, c);
            r == if ExceedsMaximum(p) then TooLong else Distance(p.Distance())
  {
    hide Problem.D;
    ghost var p := TextProblem(mblen, s, t, c);
    var m, n := |Chars(mblen, s)|, |Chars(mblen, t)|;
    if m == 0 {
      InsertionBorder(p, n);
      return Distance(n * c.ins);
    }
    if n == 0 {
      DeletionBorder(p, m);
      return Distance(m * c.del);
    }
    if m > MAX_STRLEN || n > MAX_STRLEN {
      return TooLong;
    }
    var lens := CacheLengths(mblen, s, t);
    m, n := m + 1, n + 1;
    var prev, curr := new int[m], new int[m];
    FirstRow(p, -1, c.del, prev, m);
    var y, j := 0, 1;
    while j < n
      invariant 1 <= j <= n && y == Offset(mblen, t, j - 1)
      invariant prev != curr && prev.Length == curr.Length == m
      invariant fresh(prev) && fresh(curr)
      invariant forall k | 0 <= k < m :: Good(p, -1, k, j - 1, prev[k])
    {
      var yLen := TargetLength(mblen, t, y, j - 1);
      InsertionBorder(p, j);
      curr[0] := j * c.ins;
      FillRow(mblen, p, -1, j, s, t, c, lens, 0, y, yLen, prev, curr, 1, m);
      prev, curr := curr, prev;
      y := y + yLen;
      j := j + 1;
    }
    r := Distance(prev[m - 1]);
  }

  /* The band */

  lemma SumOfProducts(a: int, b: int, k: int)
    ensures (a + b) * k == a * k + b * k
  {
  }

  lemma ProductOfSum(k: int, a: int, b: int)
    ensures k * (a + b) == k * a + k * b
  {
  }

  // More whole units than fit into the slack exceed it.
  lemma SlackExceeded(slack: int, unit: int, k: int)
    requires slack >= 0 && unit > 0 && k >= slack / unit + 1
    ensures k * unit > slack
  {
    MulMonotone(slack / unit + 1, k, unit);
    SumOfProducts(slack / unit, 1, unit);
  }

  // k deletions beyond the best column, when the string shrinks.
  lemma StopWhenShrinking(ins: int, del: int, m: nat, n: nat, bound: int, i: nat)
    requires ins >= 0 && del >= 0 && ins + del > 0 && n < m && bound >= (m - n) * del
    requires i >= (m - n) + (bound - (m - n) * del) / (ins + del) + 1
    ensures i * del + (i + n - m) * ins > bound
  {
    var k := i - (m - n);
    SlackExceeded(bound - (m - n) * del, ins + del, k);
    ProductOfSum(k, ins, del);
    SumOfProducts(k, m - n, del);
  }

  lemma StopWhenGrowing(ins: int, del: int, m: nat, n: nat, bound: int, i: nat)
    requires ins >= 0 && del >= 0 && ins + del > 0 && n >= m && bound >= (n - m) * ins
    requires i >= (bound - (n - m) * ins) / (ins + del) + 1
    ensures i * del + (i + n - m) * ins > bound
  {
    SlackExceeded(bound - (n - m) * ins, ins + del, i);
    ProductOfSum(i, ins, del);
    SumOfProducts(i, n - m, ins);
  }

  // What the residual is in the first row.
  lemma FirstResiduals(p: CharProblem, i: nat)
    ensures |p.t| < |p.s| ==> p.R(0, 0) == (|p.s| - |p.t|) * p.c.del
    ensures |p.t| >= |p.s| ==> p.R(0, 0) == (|p.t| - |p.s|) * p.c.ins
    ensures i + |p.t| > |p.s| ==> p.R(i, 0) == (i + |p.t| - |p.s|) * p.c.ins
  {
    assert p.Net(i, 0) == i + |p.t| - |p.s|;
  }

  // Where the first row may stop: every cell further right already exceeds the bound.
  lemma InitialStop(p: CharProblem, bound: int, i: nat)
    requires p.c.NonNegative() && bound >= p.R(0, 0) && p.c.ins + p.c.del > 0 && i <= |p.s|
    requires var best := if |p.t| < |p.s| then |p.s| - |p.t| else 0;
             i >= best + (bound - p.R(0, 0)) / (p.c.ins + p.c.del) + 1
    ensures p.F(i, 0) > bound
  {
    DeletionBorder(p, i);
    FirstResiduals(p, i);
    hide Problem.D, Problem.R;
    DivisionIsNonNegative(bound - p.R(0, 0), p.c.ins + p.c.del);
    if |p.t| < |p.s| {
      StopWhenShrinking(p.c.ins, p.c.del, |p.s|, |p.t|, bound, i);
    } else {
      StopWhenGrowing(p.c.ins, p.c.del, |p.s|, |p.t|, bound, i);
    }
  }

  lemma DivisionIsNonNegative(a: int, b: int)
    requires a >= 0 && b > 0
    ensures a / b >= 0
  {
  }

  method InitialStopColumn(ghost p: CharProblem, bound: int, c: Costs, m: nat, n: nat, minTheo: int) returns (stop: nat)
    requires p.c == c && c.NonNegative() && m == |p.s| && n == |p.t| && minTheo == p.R(0, 0)
    requires bound >= 0 && bound >= minTheo && c.ins + c.del > 0
    ensures 0 < stop <= m + 1 && DeadOutside(p, bound, 0, 0, stop)
  {
    var slack := bound - minTheo;
    var best := if n - m < 0 then m - n else 0;
    stop := best + slack / (c.ins + c.del) + 1;
    if stop > m {
      stop := m + 1;
    } else {
      forall i: nat | stop <= i <= m
        ensures Dead(p, bound, i, 0)
      {
        InitialStop(p, bound, i);
      }
    }
  }

  // The cells of one row that can still matter, and the sentinel just left of them in both rows.
  ghost predicate Band(p: CharProblem, bound: int, j: nat, prev: seq<int>, curr: seq<int>, start: nat, stop: nat) {
    && j <= |p.t| && start <= stop <= |p.s| + 1 == |prev| == |curr|
    && (forall i | start <= i < stop :: Good(p, bound, i, j, prev[i]))
    && DeadOutside(p, bound, j, start, stop)
    && (start > 0 ==> prev[start - 1] == curr[start - 1] == bound + 1)
  }

  ghost predicate LengthsAt(mblen: MbLen, p: CharProblem, s: seq<byte>, lens: Option<seq<nat>>) {
    WellEncoded(mblen, s) && p.s == Chars(mblen, s) && LengthsOf(mblen, s, lens)
  }

  // s_data points at the character just before the band, or at the first one.
  ghost predicate PointsAt(mblen: MbLen, s: seq<byte>, sData: nat, start: nat) {
    && WellEncoded(mblen, s) && start <= |Chars(mblen, s)| + 1
    && sData == Offset(mblen, s, if start == 0 then 0 else start - 1)
  }

  // The residual of column i in row j, as the source computes it from the zero point of the row.
  function Residual(c: Costs, i: nat, zp: int): int {
    if i - zp > 0 then (i - zp) * c.ins else -(i - zp) * c.del
  }

  method SlideStop(ghost p: CharProblem, bound: int, ghost j: nat, c: Costs, prev: array<int>, ghost curr: seq<int>,
                   zp: int, ghost start: nat, stop0: nat) returns (stop: nat)
    requires bound >= 0 && p.c == c && zp == j - (|p.t| - |p.s|)
    requires Band(p, bound, j, prev[..], curr, start, stop0)
    ensures stop <= stop0
    ensures DeadOutside(p, bound, j, start, stop)
    ensures start <= stop ==> Band(p, bound, j, prev[..], curr, start, stop)
    ensures stop > 0 ==> prev[stop - 1] + p.R(stop - 1, j) <= bound
  {
    hide Problem.D;
    stop := stop0;
    while stop > 0
      invariant stop <= stop0 && DeadOutside(p, bound, j, start, stop)
    {
      var ii := stop - 1;
      assert Residual(c, ii, zp) == p.R(ii, j);
      if start <= ii {
        assert Good(p, bound, ii, j, prev[..][ii]);
      }
      if prev[ii] + Residual(c, ii, zp) <= bound {
        break;
      }
      stop := stop - 1;
    }
  }

  method SlideStart(ghost mblen: MbLen, ghost p: CharProblem, bound: int, ghost j: nat, ghost s: seq<byte>, c: Costs,
                    lens: Option<seq<nat>>, prev: array<int>, curr: array<int>,
                    zp: int, start0: nat, stop: nat, sData0: nat) returns (start: nat, sData: nat)
    requires bound >= 0 && p.c == c && zp == j - (|p.t| - |p.s|) && prev != curr
    requires LengthsAt(mblen, p, s, lens) && PointsAt(mblen, s, sData0, start0)
    requires start0 <= stop && Band(p, bound, j, prev[..], curr[..], start0, stop)
    modifies prev, curr
    ensures start0 <= start <= stop
    ensures PointsAt(mblen, s, sData, start)
    ensures Band(p, bound, j, prev[..], curr[..], start, stop) && DeadOutside(p, bound, j, start, stop)
    ensures start < stop ==> prev[stop - 1] == old(prev[stop - 1])
  {
    hide Problem.D, Band, PointsAt, LengthsAt, DeadOutside, Good;
    start, sData := start0, sData0;
    BandFits(p, bound, j, prev[..], curr[..], start, stop);
    while start < stop
      invariant start0 <= start <= stop && PointsAt(mblen, s, sData, start)
      invariant start < stop ==> prev[stop - 1] == old(prev[stop - 1])
      invariant Band(p, bound, j, prev[..], curr[..], start, stop)
    {
      assert Residual(c, start, zp) == p.R(start, j);
      if prev[start] + Residual(c, start, zp) <= bound {
        break;
      }
      ghost var before, before' := prev[..], curr[..];
      prev[start] := bound + 1;
      curr[start] := bound + 1;
      BandShrinks(p, bound, j, before, before', prev[..], curr[..], start, stop);
      sData := NextPointer(mblen, p, s, lens, start, sData);
      start := start + 1;
    }
    BandIsDeadOutside(p, bound, j, prev[..], curr[..], start, stop);
  }

  lemma BandFits(p: CharProblem, bound: int, j: nat, prev: seq<int>, curr: seq<int>, start: nat, stop: nat)
    requires Band(p, bound, j, prev, curr, start, stop)
    ensures stop <= |p.s| + 1 == |prev| == |curr|
  {
  }

  lemma BandIsDeadOutside(p: CharProblem, bound: int, j: nat, prev: seq<int>, curr: seq<int>, start: nat, stop: nat)
    requires Band(p, bound, j, prev, curr, start, stop)
    ensures j <= |p.t| && DeadOutside(p, bound, j, start, stop)
  {
  }

  // The first band cell is outside the bound and becomes the sentinel.
  lemma BandShrinks(p: CharProblem, bound: int, j: nat, prev: seq<int>, curr: seq<int>, prev': seq<int>, curr': seq<int>,
                    start: nat, stop: nat)
    requires bound >= 0 && start < stop && Band(p, bound, j, prev, curr, start, stop)
    requires prev[start] + p.R(start, j) > bound
    requires |prev'| == |prev| && |curr'| == |curr|
    requires prev'[start] == curr'[start] == bound + 1 && forall i | start < i < stop :: prev'[i] == prev[i]
    ensures Band(p, bound, j, prev', curr', start + 1, stop)
  {
    hide Problem.D;
    assert Good(p, bound, start, j, prev[start]);
  }

  method NextPointer(ghost mblen: MbLen, ghost p: CharProblem, ghost s: seq<byte>, lens: Option<seq<nat>>, start: nat, sData: nat)
    returns (sData': nat)
    requires LengthsAt(mblen, p, s, lens) && PointsAt(mblen, s, sData, start) && start <= |p.s|
    ensures PointsAt(mblen, s, sData', start + 1)
  {
    sData' := sData;
    if start != 0 {
      var step := CharLength(mblen, s, lens, start - 1);
      sData' := sData + step;
    }
  }

  // The last band cell within the bound reaches the last cell by deletions alone.
  lemma WithinBound(p: CharProblem, bound: int, i: nat, v: int)
    requires bound >= 0 && p.c.NonNegative() && i <= |p.s|
    requires Good(p, bound, i, |p.t|, v) && v + p.R(i, |p.t|) <= bound
    ensures p.Distance() <= bound && !Dead(p, bound, |p.s|, |p.t|)
  {
    hide Problem.D;
    ResidualSteps(p, i, |p.t|);
    FurtherDeletions(p, i, |p.t|, |p.s| - i);
  }

  ghost predicate RowsReady(mblen: MbLen, p: CharProblem, s: seq<byte>, t: seq<byte>, c: Costs, lens: Option<seq<nat>>) {
    && WellEncoded(mblen, s) && WellEncoded(mblen, t) && p == TextProblem(mblen, s, t, c) && p.s != [] && p.t != []
    && LengthsOf(mblen, s, lens) && (lens.None? ==> |p.t| == |t|)
  }

  // One row of the bounded run, before the band slides.
  method FillBand(mblen: MbLen, ghost p: CharProblem, bound: int, j: nat, s: seq<byte>, t: seq<byte>, c: Costs,
                  lens: Option<seq<nat>>, prev: array<int>, curr: array<int>, m: nat,
                  start: nat, stop0: nat, sData: nat, y: nat) returns (stop: nat, yLen: nat)
    requires RowsReady(mblen, p, s, t, c, lens) && Usable(p, bound) && m == |p.s| + 1
    requires 0 < j <= |p.t| && y == Offset(mblen, t, j - 1) && PointsAt(mblen, s, sData, start)
    requires prev != curr && start < stop0 && Band(p, bound, j - 1, prev[..], curr[..], start, stop0)
    modifies prev, curr
    ensures yLen == |p.t[j - 1]| && y + yLen == Offset(mblen, t, j)
    ensures start < stop <= m && Band(p, bound, j, curr[..], prev[..], start, stop)
  {
    yLen := TargetLength(mblen, t, y, j - 1);
    stop := StepStop(p, bound, j, prev, curr, m, start, stop0);
    var i := BorderCell(p, bound, j, c, prev, curr, start, stop);
    hide Problem.D, DeadOutside;
    FillRow(mblen, p, bound, j, s, t, c, lens, sData, y, yLen, prev, curr, i, stop);
  }

  // The stop column moves right by one, with a sentinel in the cell it passes.
  method StepStop(ghost p: CharProblem, bound: int, ghost j: nat, prev: array<int>, ghost curr: array<int>, m: nat,
                  ghost start: nat, stop0: nat) returns (stop: nat)
    requires Usable(p, bound) && m == |p.s| + 1 && 0 < j <= |p.t| && prev != curr
    requires start < stop0 && Band(p, bound, j - 1, prev[..], curr[..], start, stop0)
    modifies prev
    ensures stop == (if stop0 < m then stop0 + 1 else stop0) && DeadOutside(p, bound, j, start, stop)
    ensures prev.Length == curr.Length == m && start < stop <= m
    ensures forall i | start <= i < stop :: Good(p, bound, i, j - 1, prev[i])
    ensures start > 0 ==> prev[start - 1] == bound + 1
    ensures start > 0 ==> curr[start - 1] == bound + 1 && Dead(p, bound, start - 1, j - 1)
  {
    hide Problem.D;
    stop := stop0;
    assert forall k | start <= k < stop :: Good(p, bound, k, j - 1, prev[..][k]);
    if stop < m {
      assert Dead(p, bound, stop, j - 1);
      prev[stop] := bound + 1;
      stop := stop + 1;
    }
    BandStepsDown(p, bound, j, start, stop0, stop);
  }

  // The cell left of the first one computed: the border, or the sentinel that is there already.
  method BorderCell(ghost p: CharProblem, bound: int, j: nat, c: Costs, ghost prev: array<int>, curr: array<int>,
                    start: nat, ghost stop: nat) returns (i: nat)
    requires p.c == c && 0 < j <= |p.t| && start < stop <= |p.s| + 1 == curr.Length == prev.Length && prev != curr
    requires DeadOutside(p, bound, j, start, stop)
    requires start > 0 ==> prev[start - 1] == curr[start - 1] == bound + 1 && Dead(p, bound, start - 1, j - 1)
    modifies curr
    ensures i == (if start == 0 then 1 else start)
    ensures forall k | 0 < k < curr.Length :: curr[k] == old(curr[k])
    ensures Good(p, bound, i - 1, j, curr[i - 1])
    ensures start > 0 ==> Good(p, bound, start - 1, j - 1, prev[start - 1])
    ensures start > 0 ==> curr[start - 1] == bound + 1
  {
    if start == 0 {
      InsertionBorder(p, j);
      hide Problem.D;
      curr[0] := j * c.ins;
      i := 1;
    } else {
      hide Problem.D;
      assert Dead(p, bound, start - 1, j);
      i := start;
    }
  }

  lemma FirstBand(p: CharProblem, bound: int, prev: seq<int>, curr: seq<int>, stop: nat)
    requires stop <= |p.s| + 1 == |prev| == |curr|
    requires forall k | 0 <= k < stop :: Good(p, bound, k, 0, prev[k])
    requires DeadOutside(p, bound, 0, 0, stop)
    ensures Band(p, bound, 0, prev, curr, 0, stop)
  {
  }

  lemma CrossedBand(p: CharProblem, bound: int, j: nat, start: nat, stop: nat)
    requires j <= |p.t| && stop <= start && bound >= 0 && p.c.NonNegative()
    requires DeadOutside(p, bound, j, start, stop)
    ensures p.Distance() > bound
  {
    hide Problem.D;
    assert forall i: nat | i <= |p.s| :: Dead(p, bound, i, j) && p.F(i, j) > bound;
    DeadRowMeansFar(p, j, bound);
  }

  lemma FinalCell(p: CharProblem, bound: int, prev: seq<int>, curr: seq<int>, start: nat, stop: nat)
    requires Usable(p, bound) && start < stop && Band(p, bound, |p.t|, prev, curr, start, stop)
    requires bound >= 0 ==> prev[stop - 1] + p.R(stop - 1, |p.t|) <= bound
    ensures prev[|p.s|] == if bound < 0 then p.Distance() else Min(p.Distance(), bound + 1)
  {
    hide Problem.D;
    if bound >= 0 {
      WithinBound(p, bound, stop - 1, prev[stop - 1]);
      ResidualSteps(p, |p.s|, |p.t|);
    }
    assert !Dead(p, bound, |p.s|, |p.t|);
  }

  // All rows. The bound is negative when nothing may be skipped.
  method BandedRows(mblen: MbLen, ghost p: CharProblem, bound: int, s: seq<byte>, t: seq<byte>, c: Costs,
                    lens: Option<seq<nat>>, m: nat, n: nat, stop0: nat) returns (d: int)
    requires RowsReady(mblen, p, s, t, c, lens) && Usable(p, bound) && m == |p.s| + 1 && n == |p.t| + 1
    requires 0 < stop0 <= m && DeadOutside(p, bound, 0, 0, stop0)
    ensures d == if bound < 0 then p.Distance() else Min(p.Distance(), bound + 1)
  {
    hide Problem.D, Problem.R, Good, Dead, DeadOutside, Band;
    var prev, curr := new int[m], new int[m];
    var start, stop := 0, stop0;
    FirstRow(p, bound, c.del, prev, stop);
    FirstBand(p, bound, prev[..], curr[..], stop);
    var sData, y, j := 0, 0, 1;
    while j < n
      invariant 1 <= j <= n && y == Offset(mblen, t, j - 1)
      invariant prev != curr && fresh(prev) && fresh(curr) && prev.Length == curr.Length == m
      invariant PointsAt(mblen, s, sData, start)
      invariant start < stop <= m && Band(p, bound, j - 1, prev[..], curr[..], start, stop)
      invariant bound >= 0 && j > 1 ==> prev[stop - 1] + p.R(stop - 1, j - 1) <= bound
    {
      var yLen;
      stop, yLen := FillBand(mblen, p, bound, j, s, t, c, lens, prev, curr, m, start, stop, sData, y);
      prev, curr := curr, prev;
      y := y + yLen;
      if bound >= 0 {
        var zp := j - (n - m);
        stop := SlideStop(p, bound, j, c, prev, curr[..], zp, start, stop);
        if start < stop {
          start, sData := SlideStart(mblen, p, bound, j, s, c, lens, prev, curr, zp, start, stop, sData);
        }
        if start >= stop {
          CrossedBand(p, bound, j, start, stop);
          return bound + 1;
        }
      }
      j := j + 1;
    }
    FinalCell(p, bound, prev[..], curr[..], start, stop);
    d := prev[m - 1];
  }

  method LevenshteinLessEqualInternal(mblen: MbLen, s: seq<byte>, t: seq<byte>, c0: Costs, maxD: int) returns (r: Outcome)
    requires WellEncoded(mblen, s) && WellEncoded(mblen, t)
    requires maxD >= 0 ==> c0.NonNegative()
    ensures var p := TextProblem(mblen, s, t, c0);
            r == if ExceedsMaximum(p) then TooLong
                 else if maxD < 0 || p.s == [] || p.t == [] then Distance(p.Distance())
                 else Distance(Min(p.Distance(), maxD + 1))
  {
    hide Problem.D;
    ghost var p := TextProblem(mblen, s, t, c0);
    var m, n := |Chars(mblen, s)|, |Chars(mblen, t)|;
    if m == 0 {
      InsertionBorder(p, n);
      return Distance(n * c0.ins);
    }
    if n == 0 {
      DeletionBorder(p, m);
      return Distance(m * c0.del);
    }
    if m > MAX_STRLEN || n > MAX_STRLEN {
      return TooLong;
    }
    var c, bound, stop := c0, maxD, m + 1;
    if maxD >= 0 {
      var net := n - m;
      var minTheo := if net < 0 then -net * c.del else net * c.ins;
      AtLeastTheoreticalMinimum(p);
      if minTheo > maxD {
        return Distance(maxD + 1);
      }
      if c.ins + c.del < c.sub {
        c := c.(sub := c.ins + c.del);
      }
      assert c == c0.Lowered();
      LoweringKeepsD(p, m, n);
      p := p.(c := c);
      var maxTheo := minTheo + c.sub * Min(m, n);
      AtMostTheoreticalMaximum(p);
      if maxD >= maxTheo {
        bound := -1;
      } else if c.ins + c.del > 0 {
        stop := InitialStopColumn(p, maxD, c, m, n, minTheo);
      }
    }
    var lens := CacheLengths(mblen, s, t);
    var d := BandedRows(mblen, p, bound, s, t, c, lens, m + 1, n + 1, stop);
    r := Distance(d);
  }
}
