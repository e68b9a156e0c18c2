/**
 * The membership key: `FF-` followed by four segments of four characters from
 * `A-Z0-9`, separated by dashes. Each character is chosen by a random byte
 * reduced modulo the 36-character alphabet; the bytes are an input here.
 * Also the one-time unlock rule: a key is generated only while none is held.
 */
module KeyGen {
  import opened Wrappers
  import opened Text

  type byte = b: int | 0 <= b < 256

  const SegmentCount := 4
  const SegmentLength := 4
  const Chars := "ABCDEFGHIJKLMNOPQRSTUVWXYZ0123456789"
  const KeyPrefix := "FF-"
  /** The number of random bytes one key consumes. */
  const KeyBytes := SegmentCount * SegmentLength
  /** `FF-` (3) plus four segments of 4 plus three dashes. */
  const KeyLength := 22

  /** A character of the key alphabet: a capital letter or a digit. */
  predicate IsKeyChar(c: char) {
    'A' <= c <= 'Z' || '0' <= c <= '9'
  }

  /** `chars[b % chars.length]`. */
  function CharFor(b: byte): (c: char)
    ensures IsKeyChar(c)
  {
    Chars[b % |Chars|]
  }

  /** One segment, built character by character from its bytes. */
  function Segment(bytes: seq<byte>): (s: string)
    ensures |s| == |bytes|
    ensures forall k :: 0 <= k < |bytes| ==> s[k] == CharFor(bytes[k])
  {
    if bytes == [] then "" else Segment(bytes[..|bytes| - 1]) + [CharFor(bytes[|bytes| - 1])]
  }

  /** The first `n` segments, dash-separated. */
  function Joined(bytes: seq<byte>, n: nat): string
    requires |bytes| == n * SegmentLength
  {
    if n == 0 then ""
    else
      var cut := (n - 1) * SegmentLength;
      (if n == 1 then "" else Joined(bytes[..cut], n - 1) + "-") + Segment(bytes[cut..])
  }

  /** `n` segments joined take `n` segments' characters and `n - 1` dashes. */
  lemma {:induction false} JoinedLength(bytes: seq<byte>, n: nat)
    requires |bytes| == n * SegmentLength
    ensures n == 0 ==> Joined(bytes, n) == ""
    ensures n > 0 ==> |Joined(bytes, n)| == n * (SegmentLength + 1) - 1
  {
    if n > 1 {
      JoinedLength(bytes[..(n - 1) * SegmentLength], n - 1);
    }
  }

  /** The key `generateKey` produces from the given random bytes: 22 characters starting with `FF-`. */
  function KeyFor(randomBytes: seq<byte>): (key: string)
    requires |randomBytes| == KeyBytes
    ensures |key| == KeyLength
    ensures key[..|KeyPrefix|] == KeyPrefix
  {
    JoinedSegments(randomBytes);
    KeyPrefix + Joined(randomBytes, SegmentCount)
  }

  /** All four segments joined: each from its own four bytes, with a dash between neighbours. */
  lemma JoinedSegments(randomBytes: seq<byte>)
    requires |randomBytes| == KeyBytes
    ensures Joined(randomBytes, SegmentCount) ==
      Segment(randomBytes[..4]) + "-" + Segment(randomBytes[4..8])
        + "-" + Segment(randomBytes[8..12]) + "-" + Segment(randomBytes[12..])
  {
    var b := randomBytes;
    assert b[..12][..8] == b[..8];
    assert b[..12][8..] == b[8..12];
    assert b[..8][..4] == b[..4];
    assert b[..8][4..] == b[4..8];
    assert b[..4][..0] == [];
    assert b[..4][0..] == b[..4];
    assert Joined(b[..4], 1) == Segment(b[..4]);
    assert Joined(b[..8], 2) == Segment(b[..4]) + "-" + Segment(b[4..8]);
    assert Joined(b[..12], 3) == Segment(b[..4]) + "-" + Segment(b[4..8]) + "-" + Segment(b[8..12]);
  }

  /**
   * The shape of a membership key: `FF-`, then dashes at positions 7, 12 and 17
   * and an alphabet character everywhere else, 22 characters in all.
   */
  predicate KeyShape(key: string) {
    && |key| == KeyLength
    && key[..|KeyPrefix|] == KeyPrefix
    && key[7] == '-' && key[12] == '-' && key[17] == '-'
    && forall p :: |KeyPrefix| <= p < KeyLength && p != 7 && p != 12 && p != 17 ==> IsKeyChar(key[p])
  }

  /** The four segments of a key, each taken from its own four bytes in order. */
  lemma KeyForSegments(randomBytes: seq<byte>)
    requires |randomBytes| == KeyBytes
    ensures KeyFor(randomBytes) ==
      KeyPrefix + Segment(randomBytes[..4]) + "-" + Segment(randomBytes[4..8])
        + "-" + Segment(randomBytes[8..12]) + "-" + Segment(randomBytes[12..])
  {
    JoinedSegments(randomBytes);
  }

  /**
   * Every generated key has the key shape, and its four segments are the
   * characters of its sixteen bytes in order.
   */
  lemma KeyForShape(randomBytes: seq<byte>)
    requires |randomBytes| == KeyBytes
    ensures KeyShape(KeyFor(randomBytes))
    ensures KeyFor(randomBytes)[3..7] == Segment(randomBytes[..4])
    ensures KeyFor(randomBytes)[8..12] == Segment(randomBytes[4..8])
    ensures KeyFor(randomBytes)[13..17] == Segment(randomBytes[8..12])
    ensures KeyFor(randomBytes)[18..] == Segment(randomBytes[12..])
  {
    KeyForSegments(randomBytes);
    var key := KeyFor(randomBytes);
    var s0, s1, s2, s3 := Segment(randomBytes[..4]), Segment(randomBytes[4..8]), Segment(randomBytes[8..12]), Segment(randomBytes[12..]);
    assert key[3..7] == s0;
    assert key[8..12] == s1;
    assert key[13..17] == s2;
    assert key[18..] == s3;
    forall p | |KeyPrefix| <= p < KeyLength && p != 7 && p != 12 && p != 17
      ensures IsKeyChar(key[p])
    {
      if p < 7 {
        assert key[p] == s0[p - 3];
      } else if p < 12 {
        assert key[p] == s1[p - 8];
      } else if p < 17 {
        assert key[p] == s2[p - 13];
      } else {
        assert key[p] == s3[p - 18];
      }
    }
  }

  /** `Joined` over the first `i + 1` segments, unfolded once. */
  lemma JoinedPrefix(randomBytes: seq<byte>, i: nat)
    requires |randomBytes| == KeyBytes && i < SegmentCount
    ensures Joined(randomBytes[..(i + 1) * SegmentLength], i + 1) ==
      (if i == 0 then "" else Joined(randomBytes[..i * SegmentLength], i) + "-")
        + Segment(randomBytes[i * SegmentLength..(i + 1) * SegmentLength])
  {
    var done := randomBytes[..(i + 1) * SegmentLength];
    assert done[..i * SegmentLength] == randomBytes[..i * SegmentLength];
    assert done[i * SegmentLength..] == randomBytes[i * SegmentLength..(i + 1) * SegmentLength];
  }

  /** Re-brackets appending a segment after the prefix; used by `JoinedStep`. */
  lemma AppendSegment(prefix: string, joined: string, segment: string, first: bool)
    requires first ==> joined == ""
    ensures (if first then prefix + joined else prefix + joined + "-") + segment ==
      prefix + ((if first then "" else joined + "-") + segment)
  {
  }

  /** The key as `generateKey` has built it after its first `i` segments. */
  function KeySoFar(randomBytes: seq<byte>, i: nat): string
    requires |randomBytes| == KeyBytes && i <= SegmentCount
  {
    KeyPrefix + Joined(randomBytes[..i * SegmentLength], i)
  }

  /** One pass of the outer loop of `generateKey` appends an optional dash and the next segment. */
  lemma JoinedStep(randomBytes: seq<byte>, i: nat)
    requires |randomBytes| == KeyBytes && i < SegmentCount
    ensures (if i > 0 then KeySoFar(randomBytes, i) + "-" else KeySoFar(randomBytes, i))
      + Segment(randomBytes[i * SegmentLength..(i + 1) * SegmentLength]) == KeySoFar(randomBytes, i + 1)
  {
    JoinedPrefix(randomBytes, i);
    AppendSegment(KeyPrefix, Joined(randomBytes[..i * SegmentLength], i),
      Segment(randomBytes[i * SegmentLength..(i + 1) * SegmentLength]), i == 0);
  }

  /** After all four segments, the key built so far is the whole key, and it has the key shape. */
  lemma KeySoFarComplete(randomBytes: seq<byte>)
    requires |randomBytes| == KeyBytes
    ensures KeySoFar(randomBytes, SegmentCount) == KeyFor(randomBytes)
    ensures KeyShape(KeySoFar(randomBytes, SegmentCount))
  {
    assert randomBytes[..SegmentCount * SegmentLength] == randomBytes;
    KeyForShape(randomBytes);
  }

  /** The `generateSegment` helper: one character per random byte. */
  method GenerateSegment(bytes: seq<byte>) returns (segment: string)
    ensures segment == Segment(bytes)
  {
    segment := "";
    for j := 0 to |bytes|
      invariant segment == Segment(bytes[..j])
    {
      assert bytes[..j + 1][..j] == bytes[..j];
      segment := segment + [Chars[bytes[j] % |Chars|]];
    }
    assert bytes[..|bytes|] == bytes;
  }

  /** Where the `i`-th segment's bytes start and end within the key's bytes; used by `GenerateKey`. */
  lemma SegmentBounds(i: nat)
    requires i < SegmentCount
    ensures 0 <= i * SegmentLength
    ensures (i + 1) * SegmentLength == i * SegmentLength + SegmentLength <= KeyBytes
  {
  }

  /** `generateKey`: the prefix, then four segments with a dash before all but the first. */
  method GenerateKey(randomBytes: seq<byte>) returns (key: string)
    requires |randomBytes| == KeyBytes
    ensures key == KeyFor(randomBytes)
    ensures KeyShape(key)
  {
    key := KeyPrefix;
    assert randomBytes[..0] == [];
    for i := 0 to SegmentCount
      invariant key == KeySoFar(randomBytes, i)
    {
      SegmentBounds(i);
      if i > 0 {
        key := key + "-";
      }
      var segment := GenerateSegment(randomBytes[i * SegmentLength..(i + 1) * SegmentLength]);
      JoinedStep(randomBytes, i);
      key := key + segment;
    }
    KeySoFarComplete(randomBytes);
  }

  /**
   * The unlock rule of `unlockMembershipKey`: a key is generated only when the
   * current one is falsy (null, or empty), and an existing key is kept.
   */
  function KeyAfterUnlock(winKey: Option<string>, randomBytes: seq<byte>): (k: Option<string>)
    requires |randomBytes| == KeyBytes
    ensures Truthy(k)
    ensures Truthy(winKey) ==> k == winKey
    ensures !Truthy(winKey) ==> k == Some(KeyFor(randomBytes)) && KeyShape(k.value)
  {
    KeyForShape(randomBytes);
    if Truthy(winKey) then winKey else Some(KeyFor(randomBytes))
  }

  /** Unlocking again, with whatever random bytes, never regenerates the key. */
  lemma UnlockIsIdempotent(winKey: Option<string>, first: seq<byte>, again: seq<byte>)
    requires |first| == KeyBytes && |again| == KeyBytes
    ensures KeyAfterUnlock(KeyAfterUnlock(winKey, first), again) == KeyAfterUnlock(winKey, first)
  {
  }
}
