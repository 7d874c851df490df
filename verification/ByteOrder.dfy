/**
  The order on byte strings that byteacmp gives, with prefixes and common prefixes.
 */
module ByteOrder {
  import opened Text

  type Bytes = seq<byte>

  // Dictionary order.
  predicate Le(a: Bytes, b: Bytes) {
    a == [] || (b != [] && (a[0] < b[0] || (a[0] == b[0] && Le(a[1..], b[1..]))))
  }

  // Sign of the first difference among the first n bytes.
  function MemCmp(a: Bytes, b: Bytes, n: nat): int
    requires n <= |a| && n <= |b|
  {
    if n == 0 then 0
    else if a[0] != b[0] then a[0] - b[0]
    else MemCmp(a[1..], b[1..], n - 1)
  }

  function ByteaCmp(a: Bytes, b: Bytes): int {
    var n := if |a| < |b| then |a| else |b|;
    var c := MemCmp(a, b, n);
    if c == 0 && |a| != |b| then (if |a| < |b| then -1 else 1) else c
  }

  lemma {:induction false} CmpIsLe(a: Bytes, b: Bytes)
    ensures ByteaCmp(a, b) <= 0 <==> Le(a, b)
    ensures ByteaCmp(a, b) == 0 <==> a == b
    ensures ByteaCmp(a, b) >= 0 <==> Le(b, a)
  {
    if a != [] && b != [] && a[0] == b[0] {
      CmpIsLe(a[1..], b[1..]);
      assert a == [a[0]] + a[1..] && b == [b[0]] + b[1..];
    }
  }

  lemma {:induction false} LeTransitive(a: Bytes, b: Bytes, c: Bytes)
    requires Le(a, b) && Le(b, c)
    ensures Le(a, c)
  {
    if a != [] && a[0] == b[0] == c[0] {
      LeTransitive(a[1..], b[1..], c[1..]);
    }
  }

  lemma {:induction false} LeReflexive(a: Bytes)
    ensures Le(a, a)
  {
    if a != [] {
      LeReflexive(a[1..]);
    }
  }

  lemma {:induction false} LeAntisymmetric(a: Bytes, b: Bytes)
    requires Le(a, b) && Le(b, a)
    ensures a == b
  {
    if a != [] {
      LeAntisymmetric(a[1..], b[1..]);
      assert a == [a[0]] + a[1..] && b == [b[0]] + b[1..];
    }
  }

  lemma {:induction false} LeTotal(a: Bytes, b: Bytes)
    ensures Le(a, b) || Le(b, a)
  {
    if a != [] && b != [] {
      LeTotal(a[1..], b[1..]);
    }
  }

  // At most the first n bytes.
  function Take(a: Bytes, n: nat): (r: Bytes)
    ensures |r| <= n && r <= a
  {
    if |a| <= n then a else a[..n]
  }

  lemma {:induction false} PrefixLe(a: Bytes, b: Bytes)
    requires a <= b
    ensures Le(a, b)
  {
    if a != [] {
      PrefixLe(a[1..], b[1..]);
    }
  }

  lemma TakeTail(a: Bytes, n: nat)
    requires a != [] && n > 0
    ensures Take(a, n) != [] && Take(a, n)[0] == a[0] && Take(a, n)[1..] == Take(a[1..], n - 1)
  {
  }

  lemma {:induction false} TakeMonotone(a: Bytes, b: Bytes, n: nat)
    requires Le(a, b)
    ensures Le(Take(a, n), Take(b, n))
  {
    if a != [] && n > 0 {
      TakeTail(a, n);
      TakeTail(b, n);
      if a[0] == b[0] {
        TakeMonotone(a[1..], b[1..], n - 1);
      }
    }
  }

  // Length of the longest common prefix.
  function Common(a: Bytes, b: Bytes): (n: nat)
    ensures n <= |a| && n <= |b|
  {
    if a == [] || b == [] || a[0] != b[0] then 0 else 1 + Common(a[1..], b[1..])
  }

  lemma {:induction false} CommonMeans(a: Bytes, b: Bytes)
    ensures a[..Common(a, b)] == b[..Common(a, b)]
    ensures Common(a, b) < |a| && Common(a, b) < |b| ==> a[Common(a, b)] != b[Common(a, b)]
  {
    if a != [] && b != [] && a[0] == b[0] {
      var n := Common(a[1..], b[1..]);
      CommonMeans(a[1..], b[1..]);
      assert a[..n + 1] == [a[0]] + a[1..][..n] && b[..n + 1] == [b[0]] + b[1..][..n];
    }
  }

  // The only length with those two properties.
  lemma {:induction false} CommonUnique(a: Bytes, b: Bytes, n: nat)
    requires n <= |a| && n <= |b| && a[..n] == b[..n]
    requires n < |a| && n < |b| ==> a[n] != b[n]
    ensures Common(a, b) == n
  {
    if n > 0 {
      assert a[0] == a[..n][0] == b[0];
      assert a[1..][..n - 1] == a[..n][1..] && b[1..][..n - 1] == b[..n][1..];
      CommonUnique(a[1..], b[1..], n - 1);
    }
  }

  lemma {:induction false} CommonSelf(a: Bytes)
    ensures Common(a, a) == |a|
  {
    if a != [] {
      CommonSelf(a[1..]);
    }
  }

  // Widening a range cannot lengthen the prefix its ends share.
  lemma {:induction false} CommonOfWider(lo': Bytes, lo: Bytes, up: Bytes, up': Bytes)
    requires Le(lo', lo) && Le(lo, up) && Le(up, up')
    ensures Common(lo', up') <= Common(lo, up)
  {
    if lo' != [] && up' != [] && lo'[0] == up'[0] {
      CommonOfWider(lo'[1..], lo[1..], up[1..], up'[1..]);
    }
  }

  lemma {:induction false} CommonOfTaken(a: Bytes, b: Bytes, n: nat)
    requires Common(a, b) <= n
    ensures Common(Take(a, n), Take(b, n)) == Common(a, b)
  {
    if a != [] && b != [] && n > 0 {
      TakeTail(a, n);
      TakeTail(b, n);
      if a[0] == b[0] {
        CommonOfTaken(a[1..], b[1..], n - 1);
      }
    }
  }

  // Everything between a string and an extension of it extends it too.
  lemma {:induction false} BetweenExtensions(p: Bytes, q: Bytes, x: Bytes)
    requires p <= x && Le(p, q) && Le(q, x)
    ensures p <= q
  {
    if p != [] {
      BetweenExtensions(p[1..], q[1..], x[1..]);
      assert p == [p[0]] + p[1..] && q == [q[0]] + q[1..];
    }
  }

  // A short string between x cut at n and x itself is x cut at n.
  lemma {:induction false} CutOrAbove(x: Bytes, up: Bytes, n: nat)
    requires Le(Take(x, n), up) && !Le(x, up) && |up| <= n
    ensures up <= x && |up| == n
  {
    LeReflexive(x);
    if x == [] {
      assert false;
    } else if n > 0 {
      TakeTail(x, n);
      CutOrAbove(x[1..], up[1..], n - 1);
      assert up == [up[0]] + up[1..] && x == [x[0]] + x[1..];
    }
  }

  // x exceeds a longer upper end only behind its first n bytes: it agrees with the end up to there.
  lemma {:induction false} AgreeToCut(x: Bytes, up: Bytes, n: nat)
    requires Le(Take(x, n), up) && !Le(x, up) && n <= |up|
    ensures n <= |x| && x[..n] == up[..n]
    decreases n
  {
    if n > 0 {
      assert x != [] && up != [];
      TakeTail(x, n);
      AgreeToCut(x[1..], up[1..], n - 1);
      assert x[..n] == [x[0]] + x[1..][..n - 1] && up[..n] == [up[0]] + up[1..][..n - 1];
    }
  }

  lemma {:induction false} AllOnesIsLast(tail: Bytes, w: Bytes)
    requires forall i | 0 <= i < |tail| :: tail[i] == 255
    ensures Le(w, tail) || tail <= w
  {
    if tail != [] && w != [] && w[0] == 255 {
      AllOnesIsLast(tail[1..], w[1..]);
      assert tail == [tail[0]] + tail[1..] && w == [w[0]] + w[1..];
    }
  }

  lemma {:induction false} LeUnderPrefix(p: Bytes, a: Bytes, b: Bytes)
    ensures Le(p + a, p + b) <==> Le(a, b)
    ensures p + a <= p + b <==> a <= b
    decreases |p|
  {
    if p == [] {
      assert p + a == a && p + b == b;
    } else {
      assert (p + a)[1..] == p[1..] + a && (p + b)[1..] == p[1..] + b;
      LeUnderPrefix(p[1..], a, b);
      assert p + a == [p[0]] + (p[1..] + a) && p + b == [p[0]] + (p[1..] + b);
    }
  }

  lemma {:induction false} ExtensionsStayBelow(a: Bytes, b: Bytes, x: Bytes)
    requires Le(a, b) && !(a <= b) && a <= x
    ensures Le(x, b)
  {
    if a[0] == b[0] {
      assert a[1..] <= b[1..] ==> a <= b;
      ExtensionsStayBelow(a[1..], b[1..], x[1..]);
    }
  }
}
