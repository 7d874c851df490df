/**
  The distance that fuzzystrmatch computes: edit scripts, their cost, the
  recurrence over prefixes, and the laws the distance obeys.
 */
module EditDistance {
  import opened Wrappers

  datatype Costs = Costs(ins: int, del: int, sub: int) {
    predicate NonNegative() {
      ins >= 0 && del >= 0 && sub >= 0
    }

    predicate Positive() {
      ins > 0 && del > 0 && sub > 0
    }

    // The bounded run lowers a substitution that costs more than a deletion plus an insertion.
    function Lowered(): Costs {
      if ins + del < sub then Costs(ins, del, ins + del) else this
    }

    function Swapped(): Costs {
      Costs(del, ins, sub)
    }
  }

  function Min(a: int, b: int): int {
    if a < b then a else b
  }

  /* Edit scripts */

  // One column of an alignment. A substitution changes the character.
  datatype Edit<T> = Keep | Substitute(c: T) | Insert(c: T) | Delete

  function Append<T>(o: Option<seq<T>>, c: T): Option<seq<T>> {
    match o
    case None => None
    case Some(w) => Some(w + [c])
  }

  function Init<T>(w: seq<T>): seq<T>
    requires w != []
  {
    w[..|w| - 1]
  }

  function Last<T>(w: seq<T>): T
    requires w != []
  {
    w[|w| - 1]
  }

  // The string a script turns `s` into, or None when the script does not fit `s`.
  function Run<T(==)>(script: seq<Edit<T>>, s: seq<T>): Option<seq<T>> {
    if script == [] then
      if s == [] then Some([]) else None
    else
      match Last(script)
      case Keep => if s == [] then None else Append(Run(Init(script), Init(s)), Last(s))
      case Substitute(c) =>
        if s == [] || Last(s) == c then None else Append(Run(Init(script), Init(s)), c)
      case Insert(c) => Append(Run(Init(script), s), c)
      case Delete => if s == [] then None else Run(Init(script), Init(s))
  }

  function EditCost<T>(c: Costs, e: Edit<T>): int {
    match e
    case Keep => 0
    case Substitute(_) => c.sub
    case Insert(_) => c.ins
    case Delete => c.del
  }

  function ScriptCost<T>(c: Costs, script: seq<Edit<T>>): int {
    if script == [] then 0 else ScriptCost(c, Init(script)) + EditCost(c, Last(script))
  }

  /* The recurrence */

  datatype Problem<T(==)> = Problem(s: seq<T>, t: seq<T>, c: Costs) {

    function Diagonal(i: nat, j: nat): int
      requires 0 < i <= |s| && 0 < j <= |t|
    {
      if s[i - 1] == t[j - 1] then 0 else c.sub
    }

    // Cost of turning the first i characters of s into the first j characters of t.
    function D(i: nat, j: nat): int
      requires i <= |s| && j <= |t|
      decreases i + j
    {
      if i == 0 then
        if j == 0 then 0 else D(0, j - 1) + c.ins
      else if j == 0 then
        D(i - 1, 0) + c.del
      else
        Min(Min(D(i, j - 1) + c.ins, D(i - 1, j) + c.del), D(i - 1, j - 1) + Diagonal(i, j))
    }

    function Distance(): int {
      D(|s|, |t|)
    }

    // Insertions (positive) or deletions (negative) still forced from cell (i, j).
    function Net(i: nat, j: nat): int {
      (|t| - j) - (|s| - i)
    }

    // The minimum residual distance from cell (i, j) to the last cell.
    function R(i: nat, j: nat): int {
      if Net(i, j) > 0 then Net(i, j) * c.ins else -Net(i, j) * c.del
    }

    // The least total cost of a path through cell (i, j) that the residual allows.
    function F(i: nat, j: nat): int
      requires i <= |s| && j <= |t|
    {
      D(i, j) + R(i, j)
    }
  }

  lemma Edges<T>(p: Problem<T>, i: nat, j: nat)
    requires i <= |p.s| && j <= |p.t|
    ensures j > 0 ==> p.D(i, j) <= p.D(i, j - 1) + p.c.ins
    ensures i > 0 ==> p.D(i, j) <= p.D(i - 1, j) + p.c.del
    ensures i > 0 && j > 0 ==> p.D(i, j) <= p.D(i - 1, j - 1) + p.Diagonal(i, j)
  {
  }

  datatype Move = Start | Inserting | Deleting | Diagonally

  // Which edge into cell (i, j) is cheapest.
  lemma BestMove<T>(p: Problem<T>, i: nat, j: nat) returns (m: Move)
    requires i <= |p.s| && j <= |p.t|
    ensures m.Start? ==> i == 0 && j == 0 && p.D(i, j) == 0
    ensures m.Inserting? ==> j > 0 && p.D(i, j) == p.D(i, j - 1) + p.c.ins
    ensures m.Deleting? ==> i > 0 && p.D(i, j) == p.D(i - 1, j) + p.c.del
    ensures m.Diagonally? ==> i > 0 && j > 0 && p.D(i, j) == p.D(i - 1, j - 1) + p.Diagonal(i, j)
  {
    if i == 0 || j == 0 {
      m := if i > 0 then Deleting else if j > 0 then Inserting else Start;
    } else if p.D(i, j) == p.D(i, j - 1) + p.c.ins {
      m := Inserting;
    } else if p.D(i, j) == p.D(i - 1, j) + p.c.del {
      m := Deleting;
    } else {
      m := Diagonally;
    }
  }

  /* The recurrence gives the minimum over scripts, whatever the costs */

  lemma {:induction false} ScriptsCostAtLeastD<T>(p: Problem<T>, i: nat, j: nat, script: seq<Edit<T>>)
    requires i <= |p.s| && j <= |p.t|
    requires Run(script, p.s[..i]) == Some(p.t[..j])
    ensures p.D(i, j) <= ScriptCost(p.c, script)
    decreases |script|
  {
    if script != [] {
      var s, t := p.s[..i], p.t[..j];
      var before := Init(script);
      assert i > 0 ==> Init(s) == p.s[..i - 1] && Last(s) == p.s[i - 1];
      assert j > 0 ==> Init(t) == p.t[..j - 1] && Last(t) == p.t[j - 1];
      match Last(script) {
        case Keep =>
          var w := Run(before, Init(s)).value;
          assert Init(w + [Last(s)]) == w;
          ScriptsCostAtLeastD(p, i - 1, j - 1, before);
        case Substitute(c) =>
          var w := Run(before, Init(s)).value;
          assert Init(w + [c]) == w;
          ScriptsCostAtLeastD(p, i - 1, j - 1, before);
        case Insert(c) =>
          var w := Run(before, s).value;
          assert Init(w + [c]) == w;
          ScriptsCostAtLeastD(p, i, j - 1, before);
        case Delete =>
          ScriptsCostAtLeastD(p, i - 1, j, before);
      }
    }
  }

  lemma RunSnoc<T>(script: seq<Edit<T>>, e: Edit<T>)
    ensures Init(script + [e]) == script && Last(script + [e]) == e
  {
  }

  lemma {:induction false} SomeScriptCostsD<T>(p: Problem<T>, i: nat, j: nat) returns (script: seq<Edit<T>>)
    requires i <= |p.s| && j <= |p.t|
    ensures Run(script, p.s[..i]) == Some(p.t[..j])
    ensures ScriptCost(p.c, script) == p.D(i, j)
    decreases i + j
  {
    var s, t := p.s[..i], p.t[..j];
    assert i > 0 ==> Init(s) == p.s[..i - 1] && Last(s) == p.s[i - 1];
    assert j > 0 ==> Init(t) == p.t[..j - 1] && t == p.t[..j - 1] + [p.t[j - 1]];
    if i == 0 && j == 0 {
      script := [];
    } else if j > 0 && p.D(i, j) == p.D(i, j - 1) + p.c.ins {
      script := SomeScriptCostsD(p, i, j - 1);
      RunSnoc(script, Insert(p.t[j - 1]));
      script := script + [Insert(p.t[j - 1])];
    } else if i > 0 && p.D(i, j) == p.D(i - 1, j) + p.c.del {
      script := SomeScriptCostsD(p, i - 1, j);
      RunSnoc(script, Delete);
      script := script + [Delete];
    } else {
      script := SomeScriptCostsD(p, i - 1, j - 1);
      var e := if p.s[i - 1] == p.t[j - 1] then Keep else Substitute(p.t[j - 1]);
      RunSnoc(script, e);
      script := script + [e];
    }
  }

  // Distance() is the minimum cost over all scripts from s to t: no script is cheaper and one attains it.
  lemma DistanceIsMinimum<T>(p: Problem<T>)
    ensures forall script :: Run(script, p.s) == Some(p.t) ==> p.Distance() <= ScriptCost(p.c, script)
    ensures exists script :: Run(script, p.s) == Some(p.t) && ScriptCost(p.c, script) == p.Distance()
  {
    assert p.s[..|p.s|] == p.s && p.t[..|p.t|] == p.t;
    forall script | Run(script, p.s) == Some(p.t)
      ensures p.Distance() <= ScriptCost(p.c, script)
    {
      ScriptsCostAtLeastD(p, |p.s|, |p.t|, script);
    }
    var script := SomeScriptCostsD(p, |p.s|, |p.t|);
    assert Run(script, p.s) == Some(p.t);
  }

  /* Borders, and the lowered substitution cost */

  lemma {:induction false} DeletionBorder<T>(p: Problem<T>, i: nat)
    requires i <= |p.s|
    ensures p.D(i, 0) == i * p.c.del
  {
    if i > 0 {
      DeletionBorder(p, i - 1);
    }
  }

  lemma {:induction false} InsertionBorder<T>(p: Problem<T>, j: nat)
    requires j <= |p.t|
    ensures p.D(0, j) == j * p.c.ins
  {
    if j > 0 {
      InsertionBorder(p, j - 1);
    }
  }

  lemma {:induction false} LoweringKeepsD<T>(p: Problem<T>, i: nat, j: nat)
    requires i <= |p.s| && j <= |p.t|
    ensures p.(c := p.c.Lowered()).D(i, j) == p.D(i, j)
    decreases i + j
  {
    hide Problem.D;
    var q := p.(c := p.c.Lowered());
    var m := BestMove(p, i, j);
    var n := BestMove(q, i, j);
    Edges(p, i, j);
    Edges(q, i, j);
    if i > 0 {
      LoweringKeepsD(p, i - 1, j);
    }
    if j > 0 {
      LoweringKeepsD(p, i, j - 1);
      Edges(p, i, j - 1);
    }
    if i > 0 && j > 0 {
      LoweringKeepsD(p, i - 1, j - 1);
    }
  }

  /* How D and F move from one row to the next */

  lemma {:induction false} StepFromPreviousRow<T>(p: Problem<T>, i: nat, j: nat)
    requires 0 < i <= |p.s| && 0 < j <= |p.t| && p.c.NonNegative()
    ensures p.D(i, j) >= Min(p.D(i - 1, j - 1), p.D(i, j - 1) + p.c.ins)
    decreases i
  {
    hide Problem.D;
    var m := BestMove(p, i, j);
    Edges(p, i, j - 1);
    if i > 1 {
      StepFromPreviousRow(p, i - 1, j);
      Edges(p, i - 1, j - 1);
    } else {
      Edges(p, 0, j);
      var first := BestMove(p, 0, j);
    }
  }

  lemma ResidualSteps<T>(p: Problem<T>, i: nat, j: nat)
    requires i <= |p.s| && j <= |p.t| && p.c.NonNegative()
    ensures p.R(i, j) >= 0
    ensures j > 0 ==> p.R(i, j - 1) <= p.R(i, j) + p.c.ins
    ensures i > 0 ==> p.R(i - 1, j) <= p.R(i, j) + p.c.del
    ensures i > 0 && j > 0 ==> p.R(i - 1, j - 1) == p.R(i, j)
    ensures p.R(|p.s|, |p.t|) == 0
  {
    var n := p.Net(i, j);
    var ins, del := p.c.ins, p.c.del;
    assert (n + 1) * ins == n * ins + ins && -(n + 1) * del == -n * del - del;
    assert (n - 1) * ins == n * ins - ins && -(n - 1) * del == -n * del + del;
    if n > 0 {
      MulMonotone(0, n, ins);
    } else {
      MulMonotone(0, -n, del);
    }
  }

  lemma MulMonotone(a: int, b: int, k: int)
    requires a <= b && k >= 0
    ensures a * k <= b * k
  {
  }

  // A cell is no better than both cells above it: so a dead row, or a dead stretch, stays dead.
  lemma TotalsGrowDownwards<T>(p: Problem<T>, i: nat, j: nat)
    requires i <= |p.s| && 0 < j <= |p.t| && p.c.NonNegative()
    ensures p.F(i, j) >= if i == 0 then p.F(0, j - 1) else Min(p.F(i - 1, j - 1), p.F(i, j - 1))
  {
    ResidualSteps(p, i, j);
    if i > 0 {
      StepFromPreviousRow(p, i, j);
    }
  }

  lemma {:induction false} DeadRowMeansFar<T>(p: Problem<T>, j: nat, bound: int)
    requires j <= |p.t| && p.c.NonNegative()
    requires forall i: nat | i <= |p.s| :: p.F(i, j) > bound
    ensures p.Distance() > bound
    decreases |p.t| - j
  {
    ResidualSteps(p, |p.s|, |p.t|);
    if j < |p.t| {
      forall i: nat {:trigger p.F(i, j + 1)} | i <= |p.s|
        ensures p.F(i, j + 1) > bound
      {
        TotalsGrowDownwards(p, i, j + 1);
      }
      DeadRowMeansFar(p, j + 1, bound);
    } else {
      assert p.F(|p.s|, |p.t|) > bound;
    }
  }

  /* The theoretical minimum and maximum */

  lemma {:induction false} FirstRowTotals<T>(p: Problem<T>, i: nat)
    requires i <= |p.s| && p.c.NonNegative()
    ensures p.F(i, 0) >= p.R(0, 0)
  {
    if i > 0 {
      ResidualSteps(p, i, 0);
      FirstRowTotals(p, i - 1);
    }
  }

  lemma AtLeastTheoreticalMinimum<T>(p: Problem<T>)
    requires p.c.NonNegative()
    ensures p.Distance() >= p.R(0, 0)
  {
    forall i: nat | i <= |p.s|
      ensures p.F(i, 0) > p.R(0, 0) - 1
    {
      FirstRowTotals(p, i);
    }
    DeadRowMeansFar(p, 0, p.R(0, 0) - 1);
  }

  lemma {:induction false} DiagonalAtMost<T>(p: Problem<T>, k: nat)
    requires k <= |p.s| && k <= |p.t| && p.c.NonNegative()
    ensures p.D(k, k) <= p.c.sub * k
  {
    if k > 0 {
      DiagonalAtMost(p, k - 1);
      assert p.c.sub * k == p.c.sub * (k - 1) + p.c.sub;
    }
  }

  lemma {:induction false} FurtherDeletions<T>(p: Problem<T>, i: nat, j: nat, k: nat)
    requires i + k <= |p.s| && j <= |p.t|
    ensures p.D(i + k, j) <= p.D(i, j) + k * p.c.del
  {
    hide Problem.D;
    Edges(p, i + k, j);
    if k > 0 {
      FurtherDeletions(p, i, j, k - 1);
      assert k * p.c.del == (k - 1) * p.c.del + p.c.del;
    }
  }

  lemma {:induction false} FurtherInsertions<T>(p: Problem<T>, i: nat, j: nat, k: nat)
    requires i <= |p.s| && j + k <= |p.t|
    ensures p.D(i, j + k) <= p.D(i, j) + k * p.c.ins
  {
    hide Problem.D;
    Edges(p, i, j + k);
    if k > 0 {
      FurtherInsertions(p, i, j, k - 1);
      assert k * p.c.ins == (k - 1) * p.c.ins + p.c.ins;
    }
  }

  lemma AtMostTheoreticalMaximum<T>(p: Problem<T>)
    requires p.c.NonNegative()
    ensures p.Distance() <= p.R(0, 0) + p.c.sub * Min(|p.s|, |p.t|)
  {
    var k := Min(|p.s|, |p.t|);
    DiagonalAtMost(p, k);
    FurtherDeletions(p, k, k, |p.s| - k);
    FurtherInsertions(p, |p.s|, k, |p.t| - k);
  }

  /* Laws of the distance */

  function Distance<T(==)>(c: Costs, s: seq<T>, t: seq<T>): int {
    Problem(s, t, c).Distance()
  }

  ghost predicate Triangle<T>(c: Costs, s: seq<T>, t: seq<T>, u: seq<T>, i: nat, j: nat, k: nat)
    requires i <= |s| && j <= |t| && k <= |u|
  {
    Problem(s, u, c).D(i, k) <= Problem(s, t, c).D(i, j) + Problem(t, u, c).D(j, k)
  }

  lemma {:induction false} TriangleThroughT<T>(c: Costs, s: seq<T>, t: seq<T>, u: seq<T>, i: nat, j: nat, k: nat,
                                               fst: Move, snd: Move)
    requires c.NonNegative() && i <= |s| && 0 < j <= |t| && k <= |u|
    requires fst.Inserting? || (fst.Diagonally? && i > 0)
    requires snd.Deleting? || (snd.Diagonally? && k > 0)
    requires var i' := if fst.Diagonally? then i - 1 else i;
             var k' := if snd.Diagonally? then k - 1 else k;
             && Triangle(c, s, t, u, i', j - 1, k')
             && Problem(s, t, c).D(i, j) == Problem(s, t, c).D(i', j - 1)
                + (if fst.Diagonally? then Problem(s, t, c).Diagonal(i, j) else c.ins)
             && Problem(t, u, c).D(j, k) == Problem(t, u, c).D(j - 1, k')
                + (if snd.Diagonally? then Problem(t, u, c).Diagonal(j, k) else c.del)
    ensures Triangle(c, s, t, u, i, j, k)
  {
    hide Problem.D;
    Edges(Problem(s, u, c), i, k);
  }

  lemma {:induction false} TriangleOnPrefixes<T>(c: Costs, s: seq<T>, t: seq<T>, u: seq<T>, i: nat, j: nat, k: nat)
    requires c.NonNegative() && i <= |s| && j <= |t| && k <= |u|
    ensures Triangle(c, s, t, u, i, j, k)
    decreases i + j + k
  {
    hide Problem.D;
    var fst := BestMove(Problem(s, t, c), i, j);
    var snd := BestMove(Problem(t, u, c), j, k);
    if snd.Inserting? {
      TriangleOnPrefixes(c, s, t, u, i, j, k - 1);
      Edges(Problem(s, u, c), i, k);
    } else if fst.Deleting? {
      TriangleOnPrefixes(c, s, t, u, i - 1, j, k);
      Edges(Problem(s, u, c), i, k);
    } else if j > 0 {
      TriangleOnPrefixes(c, s, t, u, if fst.Diagonally? then i - 1 else i, j - 1, if snd.Diagonally? then k - 1 else k);
      TriangleThroughT(c, s, t, u, i, j, k, fst, snd);
    } else {
      var corner := BestMove(Problem(s, u, c), 0, 0);
    }
  }

  lemma TriangleInequality<T>(c: Costs, s: seq<T>, t: seq<T>, u: seq<T>)
    requires c.NonNegative()
    ensures Distance(c, s, u) <= Distance(c, s, t) + Distance(c, t, u)
  {
    TriangleOnPrefixes(c, s, t, u, |s|, |t|, |u|);
  }

  lemma {:induction false} ReversedOnPrefixes<T>(c: Costs, s: seq<T>, t: seq<T>, i: nat, j: nat)
    requires i <= |s| && j <= |t|
    ensures Problem(s, t, c).D(i, j) == Problem(t, s, c.Swapped()).D(j, i)
    decreases i + j
  {
    hide Problem.D;
    var p, q := Problem(s, t, c), Problem(t, s, c.Swapped());
    var m := BestMove(p, i, j);
    var n := BestMove(q, j, i);
    Edges(p, i, j);
    Edges(q, j, i);
    if i > 0 {
      ReversedOnPrefixes(c, s, t, i - 1, j);
    }
    if j > 0 {
      ReversedOnPrefixes(c, s, t, i, j - 1);
    }
    if i > 0 && j > 0 {
      ReversedOnPrefixes(c, s, t, i - 1, j - 1);
    }
  }

  lemma ReversedDistance<T>(c: Costs, s: seq<T>, t: seq<T>)
    ensures Distance(c, s, t) == Distance(c.Swapped(), t, s)
  {
    ReversedOnPrefixes(c, s, t, |s|, |t|);
  }

  lemma {:induction false} ZeroOnPrefixes<T>(p: Problem<T>, i: nat, j: nat)
    requires i <= |p.s| && j <= |p.t| && p.c.Positive()
    ensures p.D(i, j) >= 0
    ensures p.D(i, j) == 0 <==> p.s[..i] == p.t[..j]
    decreases i + j
  {
    hide Problem.D;
    var m := BestMove(p, i, j);
    Edges(p, i, j);
    if i > 0 {
      ZeroOnPrefixes(p, i - 1, j);
    }
    if j > 0 {
      ZeroOnPrefixes(p, i, j - 1);
    }
    if i > 0 && j > 0 {
      ZeroOnPrefixes(p, i - 1, j - 1);
      assert p.s[..i] == p.s[..i - 1] + [p.s[i - 1]] && p.t[..j] == p.t[..j - 1] + [p.t[j - 1]];
    }
  }

  lemma ZeroExactlyForEqual<T>(c: Costs, s: seq<T>, t: seq<T>)
    requires c.Positive()
    ensures Distance(c, s, t) >= 0
    ensures Distance(c, s, t) == 0 <==> s == t
  {
    ZeroOnPrefixes(Problem(s, t, c), |s|, |t|);
    assert s[..|s|] == s && t[..|t|] == t;
  }

  /* Single changes made one after another, anywhere in the string, in any order */

  datatype Change<T> = InsertAt(k: nat, x: T) | DeleteAt(k: nat) | ReplaceAt(k: nat, x: T)

  function ApplyChange<T(==)>(ch: Change<T>, s: seq<T>): Option<seq<T>> {
    match ch
    case InsertAt(k, x) => if k <= |s| then Some(s[..k] + [x] + s[k..]) else None
    case DeleteAt(k) => if k < |s| then Some(s[..k] + s[k + 1..]) else None
    case ReplaceAt(k, x) => if k < |s| && s[k] != x then Some(s[k := x]) else None
  }

  function ChangeCost<T>(c: Costs, ch: Change<T>): int {
    match ch
    case InsertAt(_, _) => c.ins
    case DeleteAt(_) => c.del
    case ReplaceAt(_, _) => c.sub
  }

  function ApplyAll<T(==)>(chs: seq<Change<T>>, s: seq<T>): Option<seq<T>> {
    if chs == [] then Some(s)
    else
      match ApplyChange(chs[0], s)
      case None => None
      case Some(w) => ApplyAll(chs[1..], w)
  }

  function ChainCost<T>(c: Costs, chs: seq<Change<T>>): int {
    if chs == [] then 0 else ChangeCost(c, chs[0]) + ChainCost(c, chs[1..])
  }

  ghost predicate SamePrefixes<T>(p: Problem<T>, q: Problem<T>, i: nat, j: nat) {
    && i <= |p.s| && i <= |q.s| && j <= |p.t| && j <= |q.t| && p.c == q.c
    && p.s[..i] == q.s[..i] && p.t[..j] == q.t[..j]
  }

  lemma ShorterPrefixes<T>(p: Problem<T>, q: Problem<T>, i: nat, j: nat)
    requires SamePrefixes(p, q, i, j)
    ensures i > 0 ==> SamePrefixes(p, q, i - 1, j) && p.s[i - 1] == q.s[i - 1]
    ensures j > 0 ==> SamePrefixes(p, q, i, j - 1) && p.t[j - 1] == q.t[j - 1]
    ensures i > 0 && j > 0 ==> SamePrefixes(p, q, i - 1, j - 1)
  {
    if i > 0 {
      assert p.s[..i - 1] == p.s[..i][..i - 1] && q.s[..i - 1] == q.s[..i][..i - 1];
      assert p.s[i - 1] == p.s[..i][i - 1] && q.s[i - 1] == q.s[..i][i - 1];
    }
    if j > 0 {
      assert p.t[..j - 1] == p.t[..j][..j - 1] && q.t[..j - 1] == q.t[..j][..j - 1];
      assert p.t[j - 1] == p.t[..j][j - 1] && q.t[j - 1] == q.t[..j][j - 1];
    }
  }

  lemma SameBounds<T>(p: Problem<T>, q: Problem<T>, i: nat, j: nat)
    requires SamePrefixes(p, q, i, j)
    ensures i <= |p.s| && i <= |q.s| && j <= |p.t| && j <= |q.t| && p.c == q.c
  {
  }

  // The recurrence, once.
  lemma Unfolded<T>(p: Problem<T>, i: nat, j: nat)
    requires i <= |p.s| && j <= |p.t|
    ensures i == 0 && j == 0 ==> p.D(i, j) == 0
    ensures i == 0 && j > 0 ==> p.D(i, j) == p.D(0, j - 1) + p.c.ins
    ensures i > 0 && j == 0 ==> p.D(i, j) == p.D(i - 1, 0) + p.c.del
    ensures i > 0 && j > 0 ==>
      p.D(i, j) == Min(Min(p.D(i, j - 1) + p.c.ins, p.D(i - 1, j) + p.c.del), p.D(i - 1, j - 1) + p.Diagonal(i, j))
  {
  }

  // D looks only at the prefixes it is asked about.
  lemma {:induction false} DependsOnPrefixes<T>(p: Problem<T>, q: Problem<T>, i: nat, j: nat)
    requires SamePrefixes(p, q, i, j)
    ensures p.D(i, j) == q.D(i, j)
    decreases i + j
  {
    hide SamePrefixes, Problem.D, Min;
    SameBounds(p, q, i, j);
    ShorterPrefixes(p, q, i, j);
    Unfolded(p, i, j);
    Unfolded(q, i, j);
    if i > 0 {
      DependsOnPrefixes(p, q, i - 1, j);
    }
    if j > 0 {
      DependsOnPrefixes(p, q, i, j - 1);
    }
    if i > 0 && j > 0 {
      DependsOnPrefixes(p, q, i - 1, j - 1);
    }
  }

  lemma {:induction false} CommonSuffix<T>(c: Costs, a: seq<T>, b: seq<T>, w: seq<T>)
    ensures Distance(c, a + w, b + w) <= Distance(c, a, b)
    decreases |w|
  {
    hide Problem.D;
    if w == [] {
      assert a + w == a && b + w == b;
    } else {
      var v, x := Init(w), Last(w);
      CommonSuffix(c, a, b, v);
      var p, q := Problem(a + w, b + w, c), Problem(a + v, b + v, c);
      var i, j := |a + v|, |b + v|;
      assert p.s[..i] == q.s[..i] && p.t[..j] == q.t[..j];
      assert SamePrefixes(p, q, i, j);
      DependsOnPrefixes(p, q, i, j);
      Edges(p, i + 1, j + 1);
    }
  }

  lemma SelfDistance<T>(c: Costs, a: seq<T>)
    ensures Distance(c, a, a) <= 0
  {
    CommonSuffix(c, [], [], a);
    assert [] + a == a;
  }

  lemma OneChange<T>(c: Costs, ch: Change<T>, s: seq<T>)
    requires ApplyChange(ch, s).Some?
    ensures Distance(c, s, ApplyChange(ch, s).value) <= ChangeCost(c, ch)
  {
    hide Problem.D;
    var k, t := ch.k, ApplyChange(ch, s).value;
    var head := s[..k];
    var a := if ch.InsertAt? then head else head + [s[k]];
    var b := if ch.DeleteAt? then head else head + [ch.x];
    var w := if ch.InsertAt? then s[k..] else s[k + 1..];
    assert s == a + w && t == b + w;
    CommonSuffix(c, a, b, w);
    SelfDistance(c, head);
    var p := Problem(a, b, c);
    assert a[..k] == head == b[..k] && head[..k] == head;
    DependsOnPrefixes(p, Problem(head, head, c), k, k);
    Edges(p, |a|, |b|);
  }

  lemma {:induction false} ChainsCostAtLeastDistance<T>(c: Costs, chs: seq<Change<T>>, s: seq<T>)
    requires c.NonNegative() && ApplyAll(chs, s).Some?
    ensures Distance(c, s, ApplyAll(chs, s).value) <= ChainCost(c, chs)
    decreases |chs|
  {
    hide Problem.D;
    if chs == [] {
      SelfDistance(c, s);
    } else {
      var w := ApplyChange(chs[0], s).value;
      OneChange(c, chs[0], s);
      ChainsCostAtLeastDistance(c, chs[1..], w);
      TriangleInequality(c, s, w, ApplyAll(chs, s).value);
    }
  }

  lemma {:induction false} ChainUnderSuffix<T>(chs: seq<Change<T>>, s: seq<T>, x: T)
    requires ApplyAll(chs, s).Some?
    ensures ApplyAll(chs, s + [x]) == Some(ApplyAll(chs, s).value + [x])
    decreases |chs|
  {
    if chs != [] {
      var ch := chs[0];
      var w := ApplyChange(ch, s).value;
      assert ApplyChange(ch, s + [x]) == Some(w + [x]) by {
        match ch
        case InsertAt(k, y) => assert (s + [x])[..k] + [y] + (s + [x])[k..] == w + [x];
        case DeleteAt(k) => assert (s + [x])[..k] + (s + [x])[k + 1..] == w + [x];
        case ReplaceAt(k, y) => assert (s + [x])[k := y] == w + [x];
      }
      ChainUnderSuffix(chs[1..], w, x);
    }
  }

  lemma {:induction false} ChainSnoc<T>(c: Costs, chs: seq<Change<T>>, s: seq<T>, ch: Change<T>)
    requires ApplyAll(chs, s).Some?
    ensures ApplyAll(chs + [ch], s) == ApplyChange(ch, ApplyAll(chs, s).value)
    ensures ChainCost(c, chs + [ch]) == ChainCost(c, chs) + ChangeCost(c, ch)
    decreases |chs|
  {
    if chs == [] {
      assert chs + [ch] == [ch] && [ch][1..] == [];
      assert ChainCost(c, [ch][1..]) == 0;
      if ApplyChange(ch, s).Some? {
        assert ApplyAll([ch][1..], ApplyChange(ch, s).value) == ApplyChange(ch, s);
      }
    } else {
      assert (chs + [ch])[0] == chs[0] && (chs + [ch])[1..] == chs[1..] + [ch];
      ChainSnoc(c, chs[1..], ApplyChange(chs[0], s).value, ch);
    }
  }

  // A chain from the first i characters of s to the first j of t that costs d.
  ghost predicate IsChain<T>(p: Problem<T>, i: nat, j: nat, chs: seq<Change<T>>, d: int)
    requires i <= |p.s| && j <= |p.t|
  {
    ApplyAll(chs, p.s[..i]) == Some(p.t[..j]) && ChainCost(p.c, chs) == d
  }

  lemma ChainByInsertion<T>(p: Problem<T>, i: nat, j: nat, chs: seq<Change<T>>, d: int)
    requires i <= |p.s| && 0 < j <= |p.t| && IsChain(p, i, j - 1, chs, d)
    ensures IsChain(p, i, j, chs + [InsertAt(j - 1, p.t[j - 1])], d + p.c.ins)
  {
    var ch := InsertAt(j - 1, p.t[j - 1]);
    var before := p.t[..j - 1];
    hide ApplyAll, ChainCost;
    ChainSnoc(p.c, chs, p.s[..i], ch);
    assert before[..j - 1] + [p.t[j - 1]] + before[j - 1..] == p.t[..j];
  }

  lemma ChainHead<T>(c: Costs, ch: Change<T>, rest: seq<Change<T>>, s: seq<T>)
    requires ApplyChange(ch, s).Some?
    ensures ApplyAll([ch] + rest, s) == ApplyAll(rest, ApplyChange(ch, s).value)
    ensures ChainCost(c, [ch] + rest) == ChangeCost(c, ch) + ChainCost(c, rest)
  {
    assert ([ch] + rest)[1..] == rest;
  }

  lemma ChainByDeletion<T>(p: Problem<T>, i: nat, j: nat, chs: seq<Change<T>>, d: int)
    requires 0 < i <= |p.s| && j <= |p.t| && IsChain(p, i - 1, j, chs, d)
    ensures IsChain(p, i, j, [DeleteAt(i - 1)] + chs, d + p.c.del)
  {
    var s := p.s[..i];
    hide ApplyAll, ChainCost;
    assert s[..i - 1] + s[i..] == p.s[..i - 1];
    ChainHead(p.c, DeleteAt(i - 1), chs, s);
  }

  lemma ChainByKeeping<T>(p: Problem<T>, i: nat, j: nat, chs: seq<Change<T>>, d: int)
    requires 0 < i <= |p.s| && 0 < j <= |p.t| && IsChain(p, i - 1, j - 1, chs, d) && p.s[i - 1] == p.t[j - 1]
    ensures IsChain(p, i, j, chs, d)
  {
    hide ApplyAll, ChainCost;
    ChainUnderSuffix(chs, p.s[..i - 1], p.t[j - 1]);
    assert p.s[..i - 1] + [p.t[j - 1]] == p.s[..i];
    assert p.t[..j - 1] + [p.t[j - 1]] == p.t[..j];
  }

  lemma ChainByReplacing<T>(p: Problem<T>, i: nat, j: nat, chs: seq<Change<T>>, d: int)
    requires 0 < i <= |p.s| && 0 < j <= |p.t| && IsChain(p, i - 1, j - 1, chs, d) && p.s[i - 1] != p.t[j - 1]
    ensures IsChain(p, i, j, [ReplaceAt(i - 1, p.t[j - 1])] + chs, d + p.c.sub)
  {
    var s, x := p.s[..i], p.t[j - 1];
    hide ApplyAll, ChainCost;
    ChainUnderSuffix(chs, p.s[..i - 1], x);
    assert s[i - 1 := x] == p.s[..i - 1] + [x];
    assert p.t[..j - 1] + [x] == p.t[..j];
    ChainHead(p.c, ReplaceAt(i - 1, x), chs, s);
  }

  lemma {:induction false} SomeChainCostsD<T>(p: Problem<T>, i: nat, j: nat) returns (chs: seq<Change<T>>)
    requires i <= |p.s| && j <= |p.t|
    ensures IsChain(p, i, j, chs, p.D(i, j))
    decreases i + j
  {
    var m := BestMove(p, i, j);
    if m.Start? {
      chs := [];
    } else {
      hide Problem.D, IsChain;
      if m.Inserting? {
        chs := SomeChainCostsD(p, i, j - 1);
        ChainByInsertion(p, i, j, chs, p.D(i, j - 1));
        chs := chs + [InsertAt(j - 1, p.t[j - 1])];
      } else if m.Deleting? {
        chs := SomeChainCostsD(p, i - 1, j);
        ChainByDeletion(p, i, j, chs, p.D(i - 1, j));
        chs := [DeleteAt(i - 1)] + chs;
      } else {
        chs := SomeChainCostsD(p, i - 1, j - 1);
        if p.s[i - 1] == p.t[j - 1] {
          ChainByKeeping(p, i, j, chs, p.D(i - 1, j - 1));
        } else {
          ChainByReplacing(p, i, j, chs, p.D(i - 1, j - 1));
          chs := [ReplaceAt(i - 1, p.t[j - 1])] + chs;
        }
      }
    }
  }

  // With non-negative costs the distance is also the least cost of any sequence of single changes.
  lemma DistanceIsCheapestChain<T>(c: Costs, s: seq<T>, t: seq<T>)
    requires c.NonNegative()
    ensures forall chs :: ApplyAll(chs, s) == Some(t) ==> Distance(c, s, t) <= ChainCost(c, chs)
    ensures exists chs :: ApplyAll(chs, s) == Some(t) && ChainCost(c, chs) == Distance(c, s, t)
  {
    forall chs | ApplyAll(chs, s) == Some(t)
      ensures Distance(c, s, t) <= ChainCost(c, chs)
    {
      ChainsCostAtLeastDistance(c, chs, s);
    }
    var chs := SomeChainCostsD(Problem(s, t, c), |s|, |t|);
    assert s[..|s|] == s && t[..|t|] == t;
    assert ApplyAll(chs, s) == Some(t);
  }
}
