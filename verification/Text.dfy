/**
  Text values: bytes in a server encoding, and the characters they spell.
 */
module Text {

  type byte = x: int | 0 <= x < 256

  // Length in bytes of the character at the head of a byte string; stands for pg_mblen.
  type MbLen = seq<byte> -> nat

  predicate WellEncoded(mblen: MbLen, b: seq<byte>)
    decreases |b|
  {
    b == [] || (1 <= mblen(b) <= |b| && WellEncoded(mblen, b[mblen(b)..]))
  }

  function Chars(mblen: MbLen, b: seq<byte>): (cs: seq<seq<byte>>)
    requires WellEncoded(mblen, b)
    ensures |cs| <= |b|
    ensures forall k | 0 <= k < |cs| :: cs[k] != []
    decreases |b|
  {
    if b == [] then [] else [b[..mblen(b)]] + Chars(mblen, b[mblen(b)..])
  }

  // Byte offset at which character k starts.
  function Offset(mblen: MbLen, b: seq<byte>, k: nat): (o: nat)
    requires WellEncoded(mblen, b) && k <= |Chars(mblen, b)|
    ensures o <= |b|
    decreases k
  {
    if k == 0 then 0 else mblen(b) + Offset(mblen, b[mblen(b)..], k - 1)
  }

  // The first character, and how offsets shift past it.
  lemma HeadChar(mblen: MbLen, b: seq<byte>, k: nat)
    requires WellEncoded(mblen, b) && 0 < k <= |Chars(mblen, b)|
    ensures 1 <= mblen(b) <= |b| && WellEncoded(mblen, b[mblen(b)..])
    ensures Chars(mblen, b) == [b[..mblen(b)]] + Chars(mblen, b[mblen(b)..])
    ensures Offset(mblen, b, 0) == 0 && Offset(mblen, b, k) == mblen(b) + Offset(mblen, b[mblen(b)..], k - 1)
    ensures Offset(mblen, b[mblen(b)..], 0) == 0
  {
  }

  lemma {:induction false} CharAtOffset(mblen: MbLen, b: seq<byte>, k: nat)
    requires WellEncoded(mblen, b) && k < |Chars(mblen, b)|
    ensures var o, c := Offset(mblen, b, k), Chars(mblen, b)[k];
            && mblen(b[o..]) == |c|
            && o + |c| == Offset(mblen, b, k + 1)
            && b[o..o + |c|] == c
    decreases k
  {
    hide WellEncoded, Chars, Offset;
    HeadChar(mblen, b, k + 1);
    var n := mblen(b);
    if k == 0 {
      assert b[0..] == b;
    } else {
      var rest := b[n..];
      HeadChar(mblen, b, k);
      CharAtOffset(mblen, rest, k - 1);
      var o, c := Offset(mblen, rest, k - 1), Chars(mblen, rest)[k - 1];
      assert rest[o..] == b[n + o..];
      assert rest[o..o + |c|] == b[n + o..n + o + |c|];
    }
  }

  // As many characters as bytes: every character is a single byte.
  lemma {:induction false} SingleByteChars(mblen: MbLen, b: seq<byte>, k: nat)
    requires WellEncoded(mblen, b) && |Chars(mblen, b)| == |b| && k <= |b|
    ensures Offset(mblen, b, k) == k
    ensures k < |b| ==> Chars(mblen, b)[k] == [b[k]]
    decreases k
  {
    if b != [] {
      var rest := b[mblen(b)..];
      assert mblen(b) == 1;
      if k > 0 {
        SingleByteChars(mblen, rest, k - 1);
      }
    }
  }
}
