/**
  btree_gin: ordered operators answered from a GIN index by a partial-match scan over its
  sorted entries.
 */
module GinScan {
  import opened Wrappers

  datatype Error = UnrecognizedStrategy

  const LESS := 1
  const LESS_EQUAL := 2
  const EQUAL := 3
  const GREATER_EQUAL := 4
  const GREATER := 5

  // The comparison of a key type and the value its scans start from for < and <=.
  datatype TypeInfo<!K> = TypeInfo(cmp: (K, K) -> int, leftmost: K)

  datatype QueryInfo<K> = QueryInfo(strategy: int, datum: K)

  // What extract_query hands to the scan.
  datatype ScanKey<K> = ScanKey(entry: K, partialMatch: bool, extra: QueryInfo<K>)

  datatype Entry<K> = Entry(key: K, rows: set<nat>)

  ghost predicate TotalOrder<K(!new)>(cmp: (K, K) -> int) {
    && (forall a, b :: cmp(a, b) < 0 <==> cmp(b, a) > 0)
    && (forall a, b, c :: cmp(a, b) <= 0 && cmp(b, c) <= 0 ==> cmp(a, c) <= 0)
  }

  ghost predicate Sorted<K>(cmp: (K, K) -> int, es: seq<Entry<K>>) {
    forall i, j | 0 <= i < j < |es| :: cmp(es[i].key, es[j].key) < 0
  }

  // The operator, with the indexed key on its left.
  predicate Matches<K>(cmp: (K, K) -> int, strategy: int, key: K, query: K) {
    match strategy
    case 1 => cmp(key, query) < 0
    case 2 => cmp(key, query) <= 0
    case 3 => cmp(key, query) == 0
    case 4 => cmp(key, query) >= 0
    case 5 => cmp(key, query) > 0
    case _ => false
  }

  predicate Known(strategy: int) {
    LESS <= strategy <= GREATER
  }

  // A key that a scan for < or <= does not pass over before it starts.
  predicate Reached<K>(t: TypeInfo<K>, strategy: int, key: K) {
    strategy <= LESS_EQUAL ==> t.cmp(t.leftmost, key) <= 0
  }

  function Extract<K>(t: TypeInfo<K>, datum: K, strategy: int): Result<ScanKey<K>, Error> {
    if !Known(strategy) then Err(UnrecognizedStrategy)
    else
      Ok(ScanKey(if strategy <= LESS_EQUAL then t.leftmost else datum, strategy != EQUAL, QueryInfo(strategy, datum)))
  }

  // Fills the one-element arrays that the index core reads.
  method ExtractQuery<K(!new, ==)>(t: TypeInfo<K>, datum: K, strategy: int)
    returns (entries: array<K>, partialMatch: array<bool>, extra: array<QueryInfo<K>>, error: Option<Error>)
    ensures entries.Length == partialMatch.Length == extra.Length == 1
    ensures (match Extract(t, datum, strategy)
             case Err(e) => error == Some(e)
             case Ok(key) => error == None && key == ScanKey(entries[0], partialMatch[0], extra[0]))
  {
    entries := new K[1](_ => datum);
    partialMatch := new bool[1](_ => false);
    extra := new QueryInfo<K>[1](_ => QueryInfo(strategy, datum));
    error := None;
    if strategy == LESS || strategy == LESS_EQUAL {
      entries[0] := t.leftmost;
      partialMatch[0] := true;
    } else if strategy == GREATER_EQUAL || strategy == GREATER {
      partialMatch[0] := true;
      entries[0] := datum;
    } else if strategy == EQUAL {
      entries[0] := datum;
    } else {
      error := Some(UnrecognizedStrategy);
    }
  }

  // 0: match; positive: no match, stop; negative: no match, go on.
  function ComparePrefix<K>(t: TypeInfo<K>, a: K, b: K, data: QueryInfo<K>): int {
    var cmp := t.cmp(if data.strategy == LESS || data.strategy == LESS_EQUAL then data.datum else a, b);
    match data.strategy
    case 1 => if cmp > 0 then 0 else 1
    case 2 => if cmp >= 0 then 0 else 1
    case 3 => if cmp != 0 then 1 else 0
    case 4 => if cmp <= 0 then 0 else 1
    case 5 => if cmp < 0 then 0 else if cmp == 0 then -1 else 1
    case _ => 0
  }

  /* The scan */

  // The entries whose key satisfies the operator, in order, without those a < or <= scan starts behind.
  function Answer<K>(t: TypeInfo<K>, es: seq<Entry<K>>, strategy: int, query: K, reachedOnly: bool): seq<Entry<K>> {
    if es == [] then []
    else
      var rest := Answer(t, es[1..], strategy, query, reachedOnly);
      if Matches(t.cmp, strategy, es[0].key, query) && (reachedOnly ==> Reached(t, strategy, es[0].key))
      then [es[0]] + rest else rest
  }

  // Position of the first entry that is not less than the key.
  method FindItem<K(!new)>(t: TypeInfo<K>, es: seq<Entry<K>>, key: K) returns (off: nat)
    requires TotalOrder(t.cmp) && Sorted(t.cmp, es)
    ensures off <= |es|
    ensures forall i | 0 <= i < off :: t.cmp(es[i].key, key) < 0
    ensures forall i | off <= i < |es| :: t.cmp(es[i].key, key) >= 0
  {
    var hi := |es|;
    off := 0;
    while off < hi
      invariant 0 <= off <= hi <= |es|
      invariant forall i | 0 <= i < off :: t.cmp(es[i].key, key) < 0
      invariant forall i | hi <= i < |es| :: t.cmp(es[i].key, key) >= 0
    {
      var mid := (off + hi) / 2;
      if t.cmp(es[mid].key, key) < 0 {
        BelowMid(t.cmp, es, mid, key);
        off := mid + 1;
      } else {
        AboveMid(t.cmp, es, mid, key);
        hi := mid;
      }
    }
  }

  lemma BelowMid<K(!new)>(cmp: (K, K) -> int, es: seq<Entry<K>>, mid: nat, key: K)
    requires TotalOrder(cmp) && Sorted(cmp, es) && mid < |es| && cmp(es[mid].key, key) < 0
    ensures forall i | 0 <= i <= mid :: cmp(es[i].key, key) < 0
  {
    forall i | 0 <= i <= mid
      ensures cmp(es[i].key, key) < 0
    {
      if i < mid {
        StrictBelow(cmp, es[i].key, es[mid].key, key);
      }
    }
  }

  lemma AboveMid<K(!new)>(cmp: (K, K) -> int, es: seq<Entry<K>>, mid: nat, key: K)
    requires TotalOrder(cmp) && Sorted(cmp, es) && mid < |es| && cmp(es[mid].key, key) >= 0
    ensures forall i | mid <= i < |es| :: cmp(es[i].key, key) >= 0
  {
    forall i | mid <= i < |es|
      ensures cmp(es[i].key, key) >= 0
    {
      assert i > mid ==> cmp(es[mid].key, es[i].key) < 0;
      assert cmp(key, es[mid].key) <= 0;
    }
  }

  // Scans forward from the given position, as long as comparePrefix does not stop it.
  method CollectMatches<K(!new)>(t: TypeInfo<K>, es: seq<Entry<K>>, start: nat, key: ScanKey<K>)
    returns (found: seq<Entry<K>>)
    requires TotalOrder(t.cmp) && Sorted(t.cmp, es) && start <= |es|
    requires Known(key.extra.strategy) && Extract(t, key.extra.datum, key.extra.strategy) == Ok(key)
    requires forall i | start <= i < |es| :: t.cmp(es[i].key, key.entry) >= 0
    ensures found == Answer(t, es[start..], key.extra.strategy, key.extra.datum, true)
  {
    hide TotalOrder, Sorted, Matches, Reached, Extract, ComparePrefix;
    found := [];
    var off := start;
    ghost var s, q := key.extra.strategy, key.extra.datum;
    while off < |es|
      invariant start <= off <= |es|
      invariant found + Answer(t, es[off..], s, q, true) == Answer(t, es[start..], s, q, true)
    {
      assert es[off..][1..] == es[off + 1..];
      var cmp := ComparePrefix(t, key.entry, es[off].key, key.extra);
      PrefixDecides(t, es[off].key, key);
      if cmp > 0 {
        StopIsFinal(t, es, off, key);
        NoneFound(t, es[off..], s, q);
        return;
      } else if cmp == 0 {
        found := found + [es[off]];
      }
      off := off + 1;
    }
  }

  // At a position not before the start, 0 is returned for exactly the matches.
  lemma PrefixDecides<K(!new)>(t: TypeInfo<K>, k: K, key: ScanKey<K>)
    requires TotalOrder(t.cmp)
    requires Known(key.extra.strategy) && Extract(t, key.extra.datum, key.extra.strategy) == Ok(key)
    requires t.cmp(k, key.entry) >= 0
    ensures ComparePrefix(t, key.entry, k, key.extra) == 0 <==>
      Matches(t.cmp, key.extra.strategy, k, key.extra.datum) && Reached(t, key.extra.strategy, k)
  {
    var q := key.extra.datum;
    assert t.cmp(k, q) < 0 <==> t.cmp(q, k) > 0;
    assert t.cmp(q, k) < 0 <==> t.cmp(k, q) > 0;
  }

  // Where the scan stops, neither this entry nor a later one matches.
  lemma StopIsFinal<K(!new)>(t: TypeInfo<K>, es: seq<Entry<K>>, off: nat, key: ScanKey<K>)
    requires TotalOrder(t.cmp) && Sorted(t.cmp, es) && off < |es|
    requires Known(key.extra.strategy) && Extract(t, key.extra.datum, key.extra.strategy) == Ok(key)
    requires t.cmp(es[off].key, key.entry) >= 0
    requires ComparePrefix(t, key.entry, es[off].key, key.extra) > 0
    ensures forall i | off <= i < |es| :: !Matches(t.cmp, key.extra.strategy, es[i].key, key.extra.datum)
  {
    var s, q, k := key.extra.strategy, key.extra.datum, es[off].key;
    assert t.cmp(q, k) <= 0 && !Matches(t.cmp, s, k, q) && s <= EQUAL by {
      assert t.cmp(k, q) < 0 <==> t.cmp(q, k) > 0;
      assert t.cmp(q, k) < 0 <==> t.cmp(k, q) > 0;
    }
    forall i | off < i < |es|
      ensures !Matches(t.cmp, s, es[i].key, q)
    {
      StrictAbove(t.cmp, q, k, es[i].key);
      assert t.cmp(es[i].key, q) > 0;
    }
  }

  lemma StrictBelow<K(!new)>(cmp: (K, K) -> int, a: K, b: K, c: K)
    requires TotalOrder(cmp) && cmp(a, b) < 0 && cmp(b, c) <= 0
    ensures cmp(a, c) < 0
  {
    assert !(cmp(c, a) <= 0 && cmp(b, a) > 0);
  }

  lemma StrictAbove<K(!new)>(cmp: (K, K) -> int, a: K, b: K, c: K)
    requires TotalOrder(cmp) && cmp(a, b) <= 0 && cmp(b, c) < 0
    ensures cmp(a, c) < 0
  {
    assert !(cmp(c, a) <= 0 && cmp(c, b) > 0);
  }

  lemma {:induction false} NoneFound<K>(t: TypeInfo<K>, es: seq<Entry<K>>, strategy: int, query: K)
    requires forall e | e in es :: !(Matches(t.cmp, strategy, e.key, query) && Reached(t, strategy, e.key))
    ensures Answer(t, es, strategy, query, true) == []
  {
    if es != [] {
      NoneFound(t, es[1..], strategy, query);
    }
  }

  lemma {:induction false} AnswerSplits<K>(t: TypeInfo<K>, a: seq<Entry<K>>, b: seq<Entry<K>>, strategy: int, query: K)
    ensures Answer(t, a + b, strategy, query, true)
            == Answer(t, a, strategy, query, true) + Answer(t, b, strategy, query, true)
  {
    if a == [] {
      assert a + b == b;
    } else {
      assert (a + b)[1..] == a[1..] + b;
      AnswerSplits(t, a[1..], b, strategy, query);
    }
  }

  // For every index and query: the scan collects exactly the entries that satisfy the operator,
  // except those below the start value of a < or <= scan.
  method ScanEntries<K(!new, ==)>(t: TypeInfo<K>, es: seq<Entry<K>>, query: K, strategy: int)
    returns (r: Result<seq<Entry<K>>, Error>)
    requires TotalOrder(t.cmp) && Sorted(t.cmp, es)
    ensures !Known(strategy) ==> r == Err(UnrecognizedStrategy)
    ensures Known(strategy) ==> r == Ok(Answer(t, es, strategy, query, true))
  {
    var entries, partialMatch, extra, error := ExtractQuery(t, query, strategy);
    if error != None {
      return Err(error.value);
    }
    var key := ScanKey(entries[0], partialMatch[0], extra[0]);
    var found := ScanWith(t, es, key);
    return Ok(found);
  }

  method ScanWith<K(!new)>(t: TypeInfo<K>, es: seq<Entry<K>>, key: ScanKey<K>) returns (found: seq<Entry<K>>)
    requires TotalOrder(t.cmp) && Sorted(t.cmp, es)
    requires Known(key.extra.strategy) && Extract(t, key.extra.datum, key.extra.strategy) == Ok(key)
    ensures found == Answer(t, es, key.extra.strategy, key.extra.datum, true)
  {
    hide Answer, TotalOrder, Sorted;
    var start := FindItem(t, es, key.entry);
    ghost var s, q := key.extra.strategy, key.extra.datum;
    PassedOver(t, es[..start], key);
    AnswerSplits(t, es[..start], es[start..], s, q);
    assert es[..start] + es[start..] == es;
    if key.partialMatch {
      found := CollectMatches(t, es, start, key);
    } else {
      ExactMatch(t, es, start, key);
      found := if start < |es| && t.cmp(es[start].key, key.entry) == 0 then [es[start]] else [];
    }
  }

  lemma PassedOver<K(!new)>(t: TypeInfo<K>, es: seq<Entry<K>>, key: ScanKey<K>)
    requires TotalOrder(t.cmp) && forall e | e in es :: t.cmp(e.key, key.entry) < 0
    requires Known(key.extra.strategy) && Extract(t, key.extra.datum, key.extra.strategy) == Ok(key)
    ensures Answer(t, es, key.extra.strategy, key.extra.datum, true) == []
  {
    NoneFound(t, es, key.extra.strategy, key.extra.datum);
  }

  // Without a scan: the entry found is the only one that can be equal.
  lemma ExactMatch<K(!new)>(t: TypeInfo<K>, es: seq<Entry<K>>, start: nat, key: ScanKey<K>)
    requires TotalOrder(t.cmp) && Sorted(t.cmp, es) && start <= |es| && !key.partialMatch
    requires Known(key.extra.strategy) && Extract(t, key.extra.datum, key.extra.strategy) == Ok(key)
    requires forall i | start <= i < |es| :: t.cmp(es[i].key, key.entry) >= 0
    ensures Answer(t, es[start..], key.extra.strategy, key.extra.datum, true)
            == if start < |es| && t.cmp(es[start].key, key.entry) == 0 then [es[start]] else []
  {
    var q := key.extra.datum;
    if start < |es| {
      assert es[start..][1..] == es[start + 1..];
      forall i | start < i < |es|
        ensures t.cmp(es[i].key, q) != 0
      {
        if t.cmp(es[i].key, q) == 0 {
          assert t.cmp(es[start].key, es[i].key) < 0;
          StrictBelow(t.cmp, es[start].key, es[i].key, q);
        }
      }
      NoneFound(t, es[start + 1..], EQUAL, q);
    }
  }

  /* When nothing is missed */

  // Of any two filters, one narrower than the other: they agree exactly if nothing falls between them. For a scan
  // that is a match below the start value; which keys those are, each type's own lemma says.
  lemma {:induction false} ScanIsCompleteExactlyWhen<K>(t: TypeInfo<K>, es: seq<Entry<K>>, strategy: int, query: K)
    ensures Answer(t, es, strategy, query, true) == Answer(t, es, strategy, query, false) <==>
      forall e | e in es && Matches(t.cmp, strategy, e.key, query) :: Reached(t, strategy, e.key)
  {
    if es != [] {
      ScanIsCompleteExactlyWhen(t, es[1..], strategy, query);
      ReachedAreFewer(t, es[1..], strategy, query);
      var a, b := Answer(t, es[1..], strategy, query, true), Answer(t, es[1..], strategy, query, false);
      assert forall e :: e in es <==> e == es[0] || e in es[1..];
      assert a != b ==> [es[0]] + a != [es[0]] + b by {
        assert ([es[0]] + a)[1..] == a && ([es[0]] + b)[1..] == b;
      }
    }
  }

  lemma {:induction false} ReachedAreFewer<K>(t: TypeInfo<K>, es: seq<Entry<K>>, strategy: int, query: K)
    ensures |Answer(t, es, strategy, query, true)| <= |Answer(t, es, strategy, query, false)|
  {
    if es != [] {
      ReachedAreFewer(t, es[1..], strategy, query);
    }
  }

  // The least value of the type as start value misses nothing.
  lemma LeastStartMissesNothing<K>(t: TypeInfo<K>, es: seq<Entry<K>>, strategy: int, query: K)
    requires forall e | e in es :: t.cmp(t.leftmost, e.key) <= 0
    ensures Answer(t, es, strategy, query, true) == Answer(t, es, strategy, query, false)
  {
    ScanIsCompleteExactlyWhen(t, es, strategy, query);
  }

  /* Rows */

  // Every row of the table is listed under a key equal to its value, and no other row is.
  ghost predicate Indexes<K>(cmp: (K, K) -> int, es: seq<Entry<K>>, table: map<nat, K>) {
    && (forall e, r | e in es && r in e.rows :: r in table && cmp(e.key, table[r]) == 0)
    && (forall r | r in table :: exists e :: e in es && r in e.rows)
  }

  ghost function RowsOf<K>(es: seq<Entry<K>>): set<nat> {
    if es == [] then {} else es[0].rows + RowsOf(es[1..])
  }

  lemma {:induction false} RowsOfAnswer<K>(t: TypeInfo<K>, es: seq<Entry<K>>, strategy: int, query: K, r: nat)
    ensures r in RowsOf(Answer(t, es, strategy, query, false)) <==>
      exists e :: e in es && r in e.rows && Matches(t.cmp, strategy, e.key, query)
  {
    if es != [] {
      RowsOfAnswer(t, es[1..], strategy, query, r);
      var rest := Answer(t, es[1..], strategy, query, false);
      assert ([es[0]] + rest)[1..] == rest;
      assert forall e :: e in es <==> e == es[0] || e in es[1..];
    }
  }

  lemma EqualKeysMatchAlike<K(!new)>(cmp: (K, K) -> int, strategy: int, a: K, b: K, query: K)
    requires TotalOrder(cmp) && cmp(a, b) == 0
    ensures Matches(cmp, strategy, a, query) == Matches(cmp, strategy, b, query)
  {
    assert cmp(b, a) == 0;
    assert cmp(a, query) <= 0 <==> cmp(b, query) <= 0;
    assert cmp(query, a) <= 0 <==> cmp(query, b) <= 0;
  }

  lemma RowIsFound<K(!new)>(t: TypeInfo<K>, es: seq<Entry<K>>, table: map<nat, K>, strategy: int, query: K, r: nat)
    requires TotalOrder(t.cmp) && Indexes(t.cmp, es, table)
    ensures r in RowsOf(Answer(t, es, strategy, query, false))
            <==> r in table && Matches(t.cmp, strategy, table[r], query)
  {
    RowsOfAnswer(t, es, strategy, query, r);
    hide Answer, RowsOf, Matches, TotalOrder;
    forall e | e in es && r in e.rows
      ensures r in table && Matches(t.cmp, strategy, e.key, query) == Matches(t.cmp, strategy, table[r], query)
    {
      EqualKeysMatchAlike(t.cmp, strategy, e.key, table[r], query);
    }
  }

  // The rows of the answer are those whose value satisfies the operator, so no recheck is needed.
  lemma FoundRowsSatisfyOperator<K(!new)>(t: TypeInfo<K>, es: seq<Entry<K>>, table: map<nat, K>, strategy: int, query: K)
    requires TotalOrder(t.cmp) && Indexes(t.cmp, es, table)
    requires forall e | e in es :: t.cmp(t.leftmost, e.key) <= 0
    ensures RowsOf(Answer(t, es, strategy, query, true))
            == set r | r in table && Matches(t.cmp, strategy, table[r], query)
  {
    LeastStartMissesNothing(t, es, strategy, query);
    hide *;
    forall r: nat
      ensures r in RowsOf(Answer(t, es, strategy, query, false))
              <==> r in table && Matches(t.cmp, strategy, table[r], query)
    {
      RowIsFound(t, es, table, strategy, query, r);
    }
  }

  /* numeric: a null pointer stands for the missing least value */

  function NumericCmp<N>(numeric: (N, N) -> int, a: Option<N>, b: Option<N>): int {
    if a.None? then (if b.None? then 0 else -1)
    else if b.None? then 1
    else numeric(a.value, b.value)
  }

  function NumericType<N>(numeric: (N, N) -> int): TypeInfo<Option<N>> {
    TypeInfo((a, b) => NumericCmp(numeric, a, b), None)
  }

  lemma NumericIsTotalOrder<N(!new)>(numeric: (N, N) -> int)
    requires TotalOrder(numeric)
    ensures TotalOrder(NumericType(numeric).cmp)
    ensures forall a :: NumericType(numeric).cmp(None, a) <= 0
    ensures forall a :: NumericType(numeric).cmp(None, a) == 0 ==> a == None
    ensures forall a, b :: NumericType(numeric).cmp(Some(a), Some(b)) == numeric(a, b)
  {
    var cmp := NumericType(numeric).cmp;
    forall a, b
      ensures cmp(a, b) < 0 <==> cmp(b, a) > 0
    {
      NumericAntisymmetric(numeric, a, b);
    }
    forall a, b, c | cmp(a, b) <= 0 && cmp(b, c) <= 0
      ensures cmp(a, c) <= 0
    {
      NumericTransitive(numeric, a, b, c);
    }
  }

  lemma NumericAntisymmetric<N(!new)>(numeric: (N, N) -> int, a: Option<N>, b: Option<N>)
    requires TotalOrder(numeric)
    ensures NumericCmp(numeric, a, b) < 0 <==> NumericCmp(numeric, b, a) > 0
  {
  }

  lemma NumericTransitive<N(!new)>(numeric: (N, N) -> int, a: Option<N>, b: Option<N>, c: Option<N>)
    requires TotalOrder(numeric) && NumericCmp(numeric, a, b) <= 0 && NumericCmp(numeric, b, c) <= 0
    ensures NumericCmp(numeric, a, c) <= 0
  {
  }

  // No order on numbers needs a least one: the scan over stored numbers finds exactly the matches.
  lemma NumericScanIsComplete<N(!new)>(numeric: (N, N) -> int, es: seq<Entry<Option<N>>>, strategy: int, query: Option<N>)
    requires TotalOrder(numeric)
    ensures Answer(NumericType(numeric), es, strategy, query, true)
            == Answer(NumericType(numeric), es, strategy, query, false)
  {
    NumericIsTotalOrder(numeric);
    LeastStartMissesNothing(NumericType(numeric), es, strategy, query);
  }

  /* int8 and money: the start value is one above the least value */

  const INT64_MIN := -0x8000_0000_0000_0000
  const INT64_MAX := 0x7FFF_FFFF_FFFF_FFFF
  const SEQ_MINVALUE := -0x7FFF_FFFF_FFFF_FFFF

  function IntCmp(a: int, b: int): int {
    if a > b then 1 else if a == b then 0 else -1
  }

  function Int8Type(): TypeInfo<int> {
    TypeInfo(IntCmp, SEQ_MINVALUE)
  }

  ghost predicate Int8Keys(es: seq<Entry<int>>) {
    forall e | e in es :: INT64_MIN <= e.key <= INT64_MAX
  }

  // Complete exactly if the least integer is not indexed, or the query does not ask for it by < or <=.
  lemma Int8ScanIsCompleteExactlyWhen(es: seq<Entry<int>>, strategy: int, query: int)
    requires Int8Keys(es) && INT64_MIN <= query <= INT64_MAX
    ensures Answer(Int8Type(), es, strategy, query, true) == Answer(Int8Type(), es, strategy, query, false) <==>
      (strategy == LESS && query > INT64_MIN) || strategy == LESS_EQUAL ==> forall e | e in es :: e.key != INT64_MIN
  {
    ScanIsCompleteExactlyWhen(Int8Type(), es, strategy, query);
  }

  lemma Int8LeastIsMissed()
    ensures var es := [Entry(INT64_MIN, {7})];
            && Answer(Int8Type(), es, LESS, 0, false) == es
            && Answer(Int8Type(), es, LESS, 0, true) == []
  {
    var es := [Entry(INT64_MIN, {7})];
    assert es[1..] == [];
  }

  /* "char": the start value is the least signed byte, but bytes compare as unsigned */

  const SCHAR_MIN := -128
  const SCHAR_MAX := 127

  function Unsigned(c: int): int {
    if c < 0 then c + 256 else c
  }

  function CharCmp(a: int, b: int): int {
    Unsigned(a) - Unsigned(b)
  }

  function CharType(): TypeInfo<int> {
    TypeInfo(CharCmp, SCHAR_MIN)
  }

  ghost predicate CharKeys(es: seq<Entry<int>>) {
    forall e | e in es :: SCHAR_MIN <= e.key <= SCHAR_MAX
  }

  lemma CharIsTotalOrder()
    ensures TotalOrder(CharCmp)
  {
  }

  // Scans by < and <= start at byte 128, so they are complete exactly if no ASCII key matches.
  lemma CharScanIsCompleteExactlyWhen(es: seq<Entry<int>>, strategy: int, query: int)
    requires CharKeys(es) && SCHAR_MIN <= query <= SCHAR_MAX && Known(strategy)
    ensures Answer(CharType(), es, strategy, query, true) == Answer(CharType(), es, strategy, query, false) <==>
      (strategy == LESS ==> forall e | e in es && e.key >= 0 :: e.key >= Unsigned(query)) &&
      (strategy == LESS_EQUAL ==> forall e | e in es && e.key >= 0 :: e.key > Unsigned(query))
  {
    ScanIsCompleteExactlyWhen(CharType(), es, strategy, query);
  }

  // For an ASCII query they find nothing at all.
  lemma {:induction false} AsciiQueriesFindNothing(es: seq<Entry<int>>, strategy: int, query: int)
    requires CharKeys(es) && 0 <= query <= SCHAR_MAX && (strategy == LESS || strategy == LESS_EQUAL)
    ensures Answer(CharType(), es, strategy, query, true) == []
  {
    if es != [] {
      AsciiQueriesFindNothing(es[1..], strategy, query);
    }
  }

  // An index of 'a' on which < 'b' finds nothing.
  lemma CharIsMissed()
    ensures var es := [Entry(97, {7})];
            && Answer(CharType(), es, LESS, 98, false) == es
            && Answer(CharType(), es, LESS, 98, true) == []
  {
    var es := [Entry(97, {7})];
    assert es[1..] == [];
  }
}
