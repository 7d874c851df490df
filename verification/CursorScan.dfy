/**
  The parameterised foreign scan: rows are pulled from a remote cursor one FETCH at a
  time and handed out singly or in vector batches.
 */
module CursorScan {
  import opened Wrappers

  const BATCH_MAX_SIZE: nat := 1000

  function Min(a: int, b: int): int {
    if a <= b then a else b
  }

  // How one remote row becomes a local tuple, and how a tuple is regrouped before it is returned.
  datatype Conversion<!Wire, !Row> = Conversion(make: Wire -> Row, regroups: bool, regroup: Row -> Row)

  function Deliver<Wire, Row>(conv: Conversion<Wire, Row>, w: Wire): Row {
    var tuple := conv.make(w);
    if conv.regroups then conv.regroup(tuple) else tuple
  }

  function DeliverAll<Wire, Row>(conv: Conversion<Wire, Row>, ws: seq<Wire>): seq<Row> {
    seq(|ws|, i requires 0 <= i < |ws| => Deliver(conv, ws[i]))
  }

  // The remote side: the rows of the declared cursor, how many were handed out, how many FETCHes it answered.
  class Remote<Wire(==)> {
    const rows: seq<Wire>
    var position: nat
    var fetches: nat

    constructor (rows0: seq<Wire>)
      ensures rows == rows0 && position == 0 && fetches == 0
    {
      rows, position, fetches := rows0, 0, 0;
    }

    // DECLARE CURSOR puts the cursor before the first row.
    method Declare()
      modifies this
      ensures position == 0 && fetches == 0
    {
      position, fetches := 0, 0;
    }

    method Fetch(n: nat) returns (res: seq<Wire>)
      requires position <= |rows|
      modifies this
      ensures position == Min(|rows|, old(position) + n) && fetches == old(fetches) + 1
      ensures res == rows[old(position)..position]
    {
      var stop := Min(|rows|, position + n);
      res := rows[position..stop];
      position, fetches := stop, fetches + 1;
    }
  }

  // Which part of the remote data this scan is responsible for.
  datatype Share = Share(currentIdx: int, maxIdx: int, replicated: bool)

  predicate CanSkip(s: Share) {
    s.currentIdx == -1 || s.currentIdx >= s.maxIdx || (s.replicated && s.currentIdx != 0)
  }

  /* How many FETCHes a scan needs */

  // Rows asked for by so many FETCHes.
  ghost function Asked(fetches: nat, fetchSize: nat): nat {
    fetches * fetchSize
  }

  // All FETCHes so far came back full, or the last one, and only that, came up short.
  ghost predicate FetchesFit(total: nat, fetchSize: nat, fetches: nat, eof: bool) {
    && (eof <==> total < Asked(fetches, fetchSize))
    && (eof ==> fetches > 0 && Asked(fetches - 1, fetchSize) <= total)
  }

  lemma AskedGrows(a: nat, b: nat, fetchSize: nat)
    requires a <= b
    ensures Asked(a, fetchSize) <= Asked(b, fetchSize)
  {
    assert b * fetchSize == a * fetchSize + (b - a) * fetchSize;
  }

  lemma AskedMore(fetches: nat, fetchSize: nat)
    ensures Asked(fetches + 1, fetchSize) == Asked(fetches, fetchSize) + fetchSize
  {
  }

  lemma AskedBefore(total: nat, fetchSize: nat)
    requires fetchSize >= 1
    ensures Asked(total / fetchSize, fetchSize) <= total < Asked(total / fetchSize, fetchSize) + fetchSize
  {
  }

  lemma ExhaustedFetches(total: nat, fetchSize: nat, fetches: nat)
    requires fetchSize >= 1 && FetchesFit(total, fetchSize, fetches, true)
    ensures fetches == total / fetchSize + 1
  {
    var q := total / fetchSize;
    AskedBefore(total, fetchSize);
    AskedMore(q, fetchSize);
    hide Asked;
    if fetches - 1 < q {
      AskedGrows(fetches, q, fetchSize);
      assert false;
    }
    if fetches - 1 > q {
      AskedGrows(q + 1, fetches - 1, fetchSize);
      assert false;
    }
  }

  lemma NoFetchYet(total: nat, fetchSize: nat)
    ensures Asked(0, fetchSize) == 0 && FetchesFit(total, fetchSize, 0, false)
  {
  }

  lemma OneMoreFetch(total: nat, fetchSize: nat, fetches: nat)
    requires Asked(fetches, fetchSize) <= total
    ensures Asked(fetches + 1, fetchSize) == Asked(fetches, fetchSize) + fetchSize
    ensures FetchesFit(total, fetchSize, fetches + 1, total < Asked(fetches + 1, fetchSize))
  {
    AskedMore(fetches, fetchSize);
  }

  class Scan<Wire(==), Row(==)> {
    const remote: Remote<Wire>
    const conv: Conversion<Wire, Row>
    const share: Share
    const fetchSize: nat
    var cursorExists: bool
    var tuples: seq<Row>
    var numTuples: int
    var nextTuple: int
    var eofReached: bool

    constructor (remote0: Remote<Wire>, conv0: Conversion<Wire, Row>, share0: Share, fetchSize0: nat)
      requires fetchSize0 >= 1
      ensures remote == remote0 && conv == conv0 && share == share0 && fetchSize == fetchSize0
      ensures Valid() && !cursorExists && Given() == 0
    {
      remote, conv, share, fetchSize := remote0, conv0, share0, fetchSize0;
      cursorExists, tuples, numTuples, nextTuple, eofReached := false, [], 0, 0, false;
    }

    // The buffer holds the last numTuples rows fetched, of which nextTuple were handed out.
    ghost predicate Valid()
      reads this, remote
    {
      && fetchSize >= 1
      && (cursorExists ==>
            && 0 <= nextTuple <= numTuples == |tuples| <= remote.position <= |remote.rows|
            && tuples == Made(remote.rows[remote.position - numTuples..remote.position])
            && remote.position == Min(|remote.rows|, Asked(remote.fetches, fetchSize))
            && FetchesFit(|remote.rows|, fetchSize, remote.fetches, eofReached))
    }

    ghost function Made(ws: seq<Wire>): seq<Row> {
      seq(|ws|, i requires 0 <= i < |ws| => conv.make(ws[i]))
    }

    // Rows handed out so far.
    ghost function Given(): (n: nat)
      requires Valid()
      reads this, remote
      ensures n <= |remote.rows|
    {
      if cursorExists then remote.position - (numTuples - nextTuple) else 0
    }

    // The FETCHes of a scan that ran to its end.
    ghost predicate FetchedToEnd()
      reads remote
    {
      fetchSize >= 1 && remote.fetches == |remote.rows| / fetchSize + 1
    }

    ghost predicate Skips()
      reads this
    {
      !cursorExists && CanSkip(share)
    }

    method CreateCursor()
      requires Valid() && !cursorExists
      modifies this, remote
      ensures Valid() && cursorExists && Given() == 0 && remote.fetches == 0
    {
      hide Asked;
      remote.Declare();
      NoFetchYet(|remote.rows|, fetchSize);
      cursorExists, tuples, numTuples, nextTuple, eofReached := true, [], 0, 0, false;
    }

    // Replaces the buffer by the next fetchSize rows, or as many as there are.
    method FetchMoreData()
      requires Valid() && cursorExists && nextTuple == numTuples && !eofReached
      modifies this, remote
      ensures Valid() && cursorExists && nextTuple == 0
      ensures Given() == old(Given()) && remote.fetches == old(remote.fetches) + 1
      ensures numTuples == 0 ==> eofReached
      ensures old(Given()) < |remote.rows| ==> numTuples > 0
    {
      hide Asked;
      ghost var was := remote.fetches;
      OneMoreFetch(|remote.rows|, fetchSize, was);
      tuples := [];
      var res := remote.Fetch(fetchSize);
      numTuples, nextTuple := |res|, 0;
      for i := 0 to numTuples
        invariant |tuples| == i
        invariant forall j | 0 <= j < i :: tuples[j] == conv.make(res[j])
        modifies this`tuples
      {
        tuples := tuples + [conv.make(res[i])];
      }
      assert tuples == Made(res);
      eofReached := numTuples < fetchSize;
    }

    // Makes sure that the next row, if there is one, is in the buffer.
    method Refill() returns (more: bool)
      requires Valid() && cursorExists
      modifies this, remote
      ensures Valid() && cursorExists && Given() == old(Given())
      ensures more == (nextTuple < numTuples) == (old(Given()) < |remote.rows|)
      ensures !more ==> FetchedToEnd()
    {
      hide Asked;
      if nextTuple >= numTuples {
        if !eofReached {
          FetchMoreData();
        }
      }
      more := nextTuple < numTuples;
      if !more {
        ExhaustedFetches(|remote.rows|, fetchSize, remote.fetches);
      }
    }

    // The next row in the buffer, ready to be returned.
    method Take() returns (row: Row)
      requires Valid() && cursorExists && nextTuple < numTuples
      modifies this`nextTuple
      ensures Valid() && nextTuple == old(nextTuple) + 1 && Given() == old(Given()) + 1
      ensures row == Deliver(conv, remote.rows[old(Given())])
    {
      hide Asked;
      var tuple := tuples[nextTuple];
      nextTuple := nextTuple + 1;
      row := if conv.regroups then conv.regroup(tuple) else tuple;
    }

    // Creates the cursor on the first call, unless the scan is skipped, and makes sure of the next row.
    method Ready() returns (more: bool)
      requires Valid()
      modifies this, remote
      ensures Valid()
      ensures old(Skips()) ==> !more && unchanged(this, remote)
      ensures !old(Skips()) ==> !Skips() && Given() == old(Given()) && more == (old(Given()) < |remote.rows|)
      ensures more ==> cursorExists && nextTuple < numTuples
      ensures !old(Skips()) && !more ==> FetchedToEnd()
    {
      hide Asked;
      if !cursorExists {
        if CanSkip(share) {
          return false;
        }
        CreateCursor();
      }
      more := Refill();
    }

    // One row per call. The k-th call returns remote row k; after the last row every call returns nothing.
    method IterateRow() returns (row: Option<Row>)
      requires Valid()
      modifies this, remote
      ensures Valid()
      ensures old(Skips()) ==> row == None && unchanged(this, remote)
      ensures !old(Skips()) ==>
        && !Skips()
        && row == (if old(Given()) < |remote.rows| then Some(Deliver(conv, remote.rows[old(Given())])) else None)
        && Given() == Min(old(Given()) + 1, |remote.rows|)
        && (row == None ==> FetchedToEnd())
    {
      hide Asked;
      var more := Ready();
      if !more {
        return None;
      }
      var next := Take();
      return Some(next);
    }

    // One batch per call: what is left in the buffer, but no more than BATCH_MAX_SIZE rows. Nothing only at the end.
    method IterateBatch() returns (batch: seq<Row>)
      requires Valid()
      modifies this, remote
      ensures Valid()
      ensures old(Skips()) ==> batch == [] && unchanged(this, remote)
      ensures !old(Skips()) ==>
        && !Skips()
        && old(Given()) <= Given()
        && batch == DeliverAll(conv, remote.rows[old(Given())..Given()])
        && |batch| <= BATCH_MAX_SIZE
        && (batch == [] <==> old(Given()) == |remote.rows|)
        && (batch == [] ==> FetchedToEnd())
    {
      hide Asked;
      var more := Ready();
      if !more {
        return [];
      }
      batch := TakeBatch();
    }

    // The rows left in the buffer, or the first BATCH_MAX_SIZE of them.
    method TakeBatch() returns (batch: seq<Row>)
      requires Valid() && cursorExists && nextTuple < numTuples
      modifies this`nextTuple
      ensures Valid() && Given() == old(Given()) + |batch| && 0 < |batch| <= BATCH_MAX_SIZE
      ensures batch == DeliverAll(conv, remote.rows[old(Given())..Given()])
    {
      hide Valid, Given, Deliver;
      batch := [];
      var rows := 0;
      while rows < BATCH_MAX_SIZE && nextTuple < numTuples
        invariant Valid() && cursorExists
        invariant 0 <= rows == |batch| <= BATCH_MAX_SIZE
        invariant Given() == old(Given()) + rows
        invariant rows > 0 || nextTuple < numTuples
        invariant forall i | 0 <= i < rows :: batch[i] == Deliver(conv, remote.rows[old(Given()) + i])
        decreases BATCH_MAX_SIZE - rows
      {
        var next := Take();
        batch := batch + [next];
        rows := rows + 1;
      }
    }
  }

  /* Whole runs */

  datatype Call = OneRow | OneBatch

  function AsList<T>(o: Option<T>): seq<T> {
    match o
    case None => []
    case Some(x) => [x]
  }

  function Flatten<T>(parts: seq<seq<T>>): seq<T> {
    if parts == [] then [] else parts[0] + Flatten(parts[1..])
  }

  lemma {:induction false} FlattenSnoc<T>(parts: seq<seq<T>>, last: seq<T>)
    ensures Flatten(parts + [last]) == Flatten(parts) + last
  {
    if parts == [] {
      assert [last][1..] == [];
      assert Flatten([last]) == last;
    } else {
      assert (parts + [last])[1..] == parts[1..] + [last];
      FlattenSnoc(parts[1..], last);
    }
  }

  // Once a call of the run returned nothing, every later one does.
  predicate EmptyForever<T>(got: seq<seq<T>>) {
    forall i, j | 0 <= i < j < |got| :: got[i] == [] ==> got[j] == []
  }

  // Any mix of row and batch calls on a scan that is not skipped: together they return a prefix of the remote
  // rows, each once and in order, and the whole of them if some call returned nothing; by then
  // floor(N / fetchSize) + 1 FETCHes were sent.
  method RunCalls<Wire(==), Row(==)>(scan: Scan<Wire, Row>, calls: seq<Call>) returns (got: seq<seq<Row>>)
    requires scan.Valid() && !scan.Skips() && scan.Given() == 0
    modifies scan, scan.remote
    ensures scan.Valid()
    ensures |got| == |calls| && EmptyForever(got)
    ensures Flatten(got) == DeliverAll(scan.conv, scan.remote.rows[..scan.Given()])
    ensures [] in got ==> Flatten(got) == DeliverAll(scan.conv, scan.remote.rows)
    ensures [] in got ==> scan.FetchedToEnd()
  {
    got := [];
    ghost var N := |scan.remote.rows|;
    for i := 0 to |calls|
      invariant scan.Valid() && !scan.Skips() && |got| == i && EmptyForever(got)
      invariant Flatten(got) == DeliverAll(scan.conv, scan.remote.rows[..scan.Given()])
      invariant [] in got ==> scan.Given() == N && scan.FetchedToEnd()
    {
      ghost var from := scan.Given();
      var answer := RunCall(scan, calls[i]);
      FlattenSnoc(got, answer);
      ghost var rows := scan.remote.rows;
      DeliverJoin(scan.conv, rows, from, scan.Given());
      got := got + [answer];
    }
    assert scan.Given() == N ==> scan.remote.rows[..scan.Given()] == scan.remote.rows;
  }

  ghost function RowAt<Wire, Row>(conv: Conversion<Wire, Row>, rows: seq<Wire>, k: nat): Option<Row> {
    if k < |rows| then Some(Deliver(conv, rows[k])) else None
  }

  lemma DeliverJoin<Wire, Row>(conv: Conversion<Wire, Row>, rows: seq<Wire>, a: nat, b: nat)
    requires a <= b <= |rows|
    ensures DeliverAll(conv, rows[..a]) + DeliverAll(conv, rows[a..b]) == DeliverAll(conv, rows[..b])
  {
  }

  method RunCall<Wire(==), Row(==)>(scan: Scan<Wire, Row>, call: Call) returns (answer: seq<Row>)
    requires scan.Valid() && !scan.Skips()
    modifies scan, scan.remote
    ensures scan.Valid() && !scan.Skips() && old(scan.Given()) <= scan.Given()
    ensures answer == DeliverAll(scan.conv, scan.remote.rows[old(scan.Given())..scan.Given()])
    ensures answer == [] <==> old(scan.Given()) == |scan.remote.rows|
    ensures answer == [] ==> scan.FetchedToEnd()
  {
    match call
    case OneRow =>
      var row := scan.IterateRow();
      answer := AsList(row);
    case OneBatch =>
      answer := scan.IterateBatch();
  }

  // The k-th of a run of row calls returns remote row k; all calls after the last row return nothing.
  method RunRows<Wire(==), Row(==)>(scan: Scan<Wire, Row>, count: nat) returns (got: seq<Option<Row>>)
    requires scan.Valid() && !scan.Skips() && scan.Given() == 0
    modifies scan, scan.remote
    ensures scan.Valid() && |got| == count
    ensures forall k | 0 <= k < count :: got[k] == RowAt(scan.conv, scan.remote.rows, k)
    ensures forall k | 0 <= k < count && k < |scan.remote.rows| ::
      var tuple := scan.conv.make(scan.remote.rows[k]);
      got[k] == Some(if scan.conv.regroups then scan.conv.regroup(tuple) else tuple)
    ensures count > |scan.remote.rows| ==> scan.FetchedToEnd()
  {
    hide Scan.Valid, Scan.Given, Scan.Skips, Scan.FetchedToEnd;
    got := [];
    ghost var N := |scan.remote.rows|;
    for i := 0 to count
      invariant scan.Valid() && !scan.Skips() && |got| == i && scan.Given() == Min(i, N)
      invariant forall k | 0 <= k < i :: got[k] == RowAt(scan.conv, scan.remote.rows, k)
      invariant i > N ==> scan.FetchedToEnd()
    {
      var row := scan.IterateRow();
      got := got + [row];
    }
  }

  // A skipped scan returns nothing, sends nothing and stays skipped.
  method RunSkipped<Wire(==), Row(==)>(scan: Scan<Wire, Row>, calls: seq<Call>) returns (got: seq<seq<Row>>)
    requires scan.Valid() && scan.Skips()
    modifies scan, scan.remote
    ensures scan.Valid() && unchanged(scan, scan.remote)
    ensures |got| == |calls| && forall k | 0 <= k < |got| :: got[k] == []
  {
    got := [];
    for i := 0 to |calls|
      invariant scan.Valid() && scan.Skips() && unchanged(scan, scan.remote)
      invariant |got| == i && forall k | 0 <= k < i :: got[k] == []
    {
      match calls[i] {
        case OneRow =>
          var row := scan.IterateRow();
          got := got + [AsList(row)];
        case OneBatch =>
          var batch := scan.IterateBatch();
          got := got + [batch];
      }
    }
  }

  /* All scans of one relation */

  // Row calls until nothing comes back.
  method Drain<Wire(==), Row(==)>(scan: Scan<Wire, Row>) returns (rows: seq<Row>)
    requires scan.Valid() && scan.Given() == 0
    modifies scan, scan.remote
    ensures scan.Valid()
    ensures rows == if old(scan.Skips()) then [] else DeliverAll(scan.conv, scan.remote.rows)
  {
    hide Scan.Valid, Scan.Given, Scan.Skips, Scan.FetchedToEnd, Deliver;
    rows := [];
    ghost var skips := scan.Skips();
    ghost var N := |scan.remote.rows|;
    while true
      invariant scan.Valid() && scan.Skips() == skips && |rows| <= N && scan.Given() == |rows|
      invariant skips ==> rows == []
      invariant forall k | 0 <= k < |rows| :: rows[k] == Deliver(scan.conv, scan.remote.rows[k])
      decreases N - |rows|
    {
      var row := scan.IterateRow();
      match row {
        case None => return;
        case Some(r) => rows := rows + [r];
      }
    }
  }

  // Which of the scans 0 .. maxIdx - 1 deliver: all of them, or only the first if every node has all rows. Scans with
  // another number deliver nothing.
  lemma WhoDelivers(idx: int, maxIdx: int, replicated: bool)
    requires idx >= -1
    ensures !CanSkip(Share(idx, maxIdx, replicated)) <==> 0 <= idx < maxIdx && (replicated ==> idx == 0)
  {
  }

  // One scan per remote node, in whatever portions the rows are fetched: of a relation that is spread over the nodes
  // every scan returns its node's rows, of a replicated one only the first scan returns any.
  method DrainAll<Wire(==), Row(==)>(
    shards: seq<seq<Wire>>, conv: Conversion<Wire, Row>, replicated: bool, fetchSize: nat) returns (out: seq<seq<Row>>)
    requires fetchSize >= 1
    ensures |out| == |shards|
    ensures forall i | 0 <= i < |out| :: out[i] == if replicated && i > 0 then [] else DeliverAll(conv, shards[i])
    ensures !replicated ==> Flatten(out) == DeliverAll(conv, Flatten(shards))
    ensures replicated && shards != [] ==> Flatten(out) == DeliverAll(conv, shards[0])
  {
    out := [];
    for i := 0 to |shards|
      invariant |out| == i
      invariant forall k | 0 <= k < i :: out[k] == if replicated && k > 0 then [] else DeliverAll(conv, shards[k])
    {
      var rows := DrainOne(shards[i], conv, Share(i, |shards|, replicated), fetchSize);
      WhoDelivers(i, |shards|, replicated);
      out := out + [rows];
    }
    if !replicated {
      SpreadRows(conv, shards, out);
    } else if shards != [] {
      FirstOnly(out);
    }
  }

  method DrainOne<Wire(==), Row(==)>(rows: seq<Wire>, conv: Conversion<Wire, Row>, share: Share, fetchSize: nat)
    returns (out: seq<Row>)
    requires fetchSize >= 1
    ensures out == if CanSkip(share) then [] else DeliverAll(conv, rows)
  {
    var remote := new Remote(rows);
    var scan := new Scan(remote, conv, share, fetchSize);
    out := Drain(scan);
  }

  lemma {:induction false} SpreadRows<Wire, Row>(conv: Conversion<Wire, Row>, shards: seq<seq<Wire>>, out: seq<seq<Row>>)
    requires |out| == |shards| && forall i | 0 <= i < |out| :: out[i] == DeliverAll(conv, shards[i])
    ensures Flatten(out) == DeliverAll(conv, Flatten(shards))
  {
    if out != [] {
      SpreadRows(conv, shards[1..], out[1..]);
      DeliverConcat(conv, shards[0], Flatten(shards[1..]));
    }
  }

  lemma DeliverConcat<Wire, Row>(conv: Conversion<Wire, Row>, a: seq<Wire>, b: seq<Wire>)
    ensures DeliverAll(conv, a + b) == DeliverAll(conv, a) + DeliverAll(conv, b)
  {
  }

  lemma {:induction false} NothingMore<T>(parts: seq<seq<T>>)
    requires forall i | 0 <= i < |parts| :: parts[i] == []
    ensures Flatten(parts) == []
  {
    if parts != [] {
      NothingMore(parts[1..]);
    }
  }

  lemma FirstOnly<T>(parts: seq<seq<T>>)
    requires parts != [] && forall i | 0 < i < |parts| :: parts[i] == []
    ensures Flatten(parts) == parts[0]
  {
    NothingMore(parts[1..]);
  }
}
