/**
 * SMTP transparency (section 4.5.2 of RFC 2821): the dot-stuffing applied to a
 * ready segment before it is sent, and the dot-unstuffing applied to a received
 * segment before it is stored.
 *
 * Both transforms decide per byte with the same positional test: a dot is
 * "leading" when it is the first byte of the segment, or when it is preceded by
 * a line feed and lies at index 3 or later.  Dots at indexes 1 and 2 are never
 * leading, even right after a line feed; the lemmas at the end of this module
 * show what that does to the round trip.
 */
module Transparency {

  type Byte = bv8

  const Dot: Byte := 46
  const CR: Byte := 13
  const LF: Byte := 10

  /** The positional test both transforms apply to the byte at index i. */
  predicate IsLeadingDot(s: seq<Byte>, i: nat)
    requires i < |s|
  {
    s[i] == Dot && (i == 0 || (i > 2 && s[i - 1] == LF))
  }

  /** Number of leading dots in s. */
  function LeadingDots(s: seq<Byte>): nat
  {
    if s == [] then 0
    else LeadingDots(s[..|s| - 1]) + (if IsLeadingDot(s, |s| - 1) then 1 else 0)
  }

  /** Dot-stuffing: every byte in order, with one extra dot before each leading dot. */
  function Stuffed(s: seq<Byte>): seq<Byte>
  {
    if s == [] then []
    else
      var i := |s| - 1;
      Stuffed(s[..i]) + (if IsLeadingDot(s, i) then [Dot, s[i]] else [s[i]])
  }

  /** Dot-unstuffing: every byte in order, except the leading dots. */
  function Unstuffed(s: seq<Byte>): seq<Byte>
  {
    if s == [] then []
    else
      var i := |s| - 1;
      Unstuffed(s[..i]) + (if IsLeadingDot(s, i) then [] else [s[i]])
  }

  /** The one input shape whose stuffing does not unstuff back: ". LF ." at the start. */
  predicate DotAfterEarlyLineFeed(s: seq<Byte>)
  {
    |s| >= 3 && s[0] == Dot && s[1] == LF && s[2] == Dot
  }

  // ---------------------------------------------------------------------------
  // Length bounds

  /** Stuffing adds exactly one byte per leading dot, so at most doubles the input. */
  lemma {:induction false} StuffedLength(s: seq<Byte>)
    ensures |Stuffed(s)| == |s| + LeadingDots(s)
    ensures LeadingDots(s) <= |s| && |Stuffed(s)| <= 2 * |s|
  {
    if s != [] {
      StuffedLength(s[..|s| - 1]);
    }
  }

  /** Unstuffing removes exactly the leading dots, so never grows the input. */
  lemma {:induction false} UnstuffedLength(s: seq<Byte>)
    ensures |Unstuffed(s)| + LeadingDots(s) == |s|
    ensures |Unstuffed(s)| <= |s|
  {
    if s != [] {
      UnstuffedLength(s[..|s| - 1]);
    }
  }

  /** A segment without leading dots passes through either transform unchanged. */
  lemma {:induction false} NoLeadingDotsIdentity(s: seq<Byte>)
    requires LeadingDots(s) == 0
    ensures Stuffed(s) == s && Unstuffed(s) == s
  {
    if s != [] {
      var i := |s| - 1;
      NoLeadingDotsIdentity(s[..i]);
      assert s[..i] + [s[i]] == s;
    }
  }

  /** Only dots can be leading dots. */
  lemma {:induction false} NoDotsNoLeadingDots(s: seq<Byte>)
    requires Dot !in s
    ensures LeadingDots(s) == 0
  {
    if s != [] {
      NoDotsNoLeadingDots(s[..|s| - 1]);
    }
  }

  // ---------------------------------------------------------------------------
  // Round trip

  /** The last byte that stuffing emits is the input's last byte. */
  lemma StuffedLast(s: seq<Byte>)
    requires s != []
    ensures Stuffed(s) != [] && Stuffed(s)[|Stuffed(s)| - 1] == s[|s| - 1]
  {
  }

  lemma StuffedSnoc(p: seq<Byte>, c: Byte)
    ensures Stuffed(p + [c]) == Stuffed(p) + (if IsLeadingDot(p + [c], |p|) then [Dot, c] else [c])
  {
    assert (p + [c])[..|p|] == p;
  }

  lemma UnstuffedSnoc(s: seq<Byte>, b: Byte)
    ensures Unstuffed(s + [b]) == Unstuffed(s) + (if IsLeadingDot(s + [b], |s|) then [] else [b])
  {
    assert (s + [b])[..|s|] == s;
  }

  /** Stuffing of a two-byte prefix "x LF" has one extra byte exactly when x is a dot. */
  lemma StuffedPairLength(p: seq<Byte>)
    requires |p| == 2 && p[1] == LF
    ensures |Stuffed(p)| == if p[0] == Dot then 3 else 2
  {
    StuffedSnoc([p[0]], LF);
    assert [p[0]] + [LF] == p;
    StuffedSnoc([], p[0]);
  }

  /** A stuffed leading dot c comes back as c alone. */
  lemma {:induction false} UnstuffStuffLeading(p: seq<Byte>, c: Byte)
    requires IsLeadingDot(p + [c], |p|)
    ensures Unstuffed(Stuffed(p + [c])) == Unstuffed(Stuffed(p)) + [c]
  {
    var a := Stuffed(p);
    StuffedSnoc(p, c);
    StuffedLength(p);
    if p != [] {
      StuffedLast(p);
    }
    assert Stuffed(p + [c]) == (a + [Dot]) + [c];
    UnstuffedSnoc(a + [Dot], c);
    UnstuffedSnoc(a, Dot);
    assert IsLeadingDot(a + [Dot], |a|);
    assert !IsLeadingDot(a + [Dot] + [c], |a| + 1);
  }

  /** Any other byte c comes back as c, except the dot of ". LF .". */
  lemma {:induction false} UnstuffStuffOther(p: seq<Byte>, c: Byte)
    requires !IsLeadingDot(p + [c], |p|)
    ensures Unstuffed(Stuffed(p + [c])) ==
      Unstuffed(Stuffed(p)) + (if DotAfterEarlyLineFeed(p + [c]) && |p| == 2 then [] else [c])
  {
    var a := Stuffed(p);
    StuffedSnoc(p, c);
    StuffedLength(p);
    UnstuffedSnoc(a, c);
    if p != [] {
      StuffedLast(p);
      if |p| == 2 && p[1] == LF {
        StuffedPairLength(p);
      }
    }
  }

  /** Appending a byte after index 2 commutes with dropping index 2. */
  lemma DropIndexTwoSnoc(p: seq<Byte>, c: Byte)
    requires |p| >= 3
    ensures DotAfterEarlyLineFeed(p + [c]) == DotAfterEarlyLineFeed(p)
    ensures (p + [c])[..2] + (p + [c])[3..] == p[..2] + p[3..] + [c]
  {
  }

  /**
   * Exactly what unstuffing recovers from a stuffed segment: the segment itself,
   * except that in the ". LF ." case the dot at index 2 is lost.
   */
  lemma {:induction false} UnstuffStuff(s: seq<Byte>)
    ensures Unstuffed(Stuffed(s)) == if DotAfterEarlyLineFeed(s) then s[..2] + s[3..] else s
  {
    if s != [] {
      var p, c := s[..|s| - 1], s[|s| - 1];
      assert s == p + [c];
      UnstuffStuff(p);
      if IsLeadingDot(p + [c], |p|) {
        UnstuffStuffLeading(p, c);
      } else {
        UnstuffStuffOther(p, c);
      }
      if |p| >= 3 {
        DropIndexTwoSnoc(p, c);
      }
    }
  }

  /** Stuffing followed by unstuffing is the identity exactly when s does not start with ". LF .". */
  lemma RoundTrip(s: seq<Byte>)
    ensures Unstuffed(Stuffed(s)) == s <==> !DotAfterEarlyLineFeed(s)
  {
    UnstuffStuff(s);
    if DotAfterEarlyLineFeed(s) {
      assert |s[..2] + s[3..]| == |s| - 1;
    }
  }

  /** The smallest witness: ". LF ." stuffs to ". . LF ." and unstuffs to ". LF". */
  lemma RoundTripCounterexample()
    ensures Stuffed([Dot, LF, Dot]) == [Dot, Dot, LF, Dot]
    ensures Unstuffed(Stuffed([Dot, LF, Dot])) == [Dot, LF]
  {
    UnstuffStuff([Dot, LF, Dot]);
    var s := [Dot, LF, Dot];
    assert s[..2] == [Dot, LF] && s[..1] == [Dot];
    assert Stuffed([Dot]) == [Dot, Dot];
    assert Stuffed(s[..2]) == [Dot, Dot, LF];
  }

  // ---------------------------------------------------------------------------
  // The transforms as the server runs them: one pass over the segment, writing
  // into an output array allocated at the worst-case size.

  /** Dot-stuffs a segment into an array of twice its length. */
  method InsertTransmissionPeriod(segment: seq<Byte>) returns (out: seq<Byte>)
    ensures out == Stuffed(segment)
  {
    var n := |segment|;
    var outBuffer := new Byte[2 * n];
    var k := 0;
    for i := 0 to n
      invariant k <= 2 * i
      invariant outBuffer[..k] == Stuffed(segment[..i])
    {
      var c := segment[i];
      assert segment[..i + 1][..i] == segment[..i];
      if c == Dot {
        if i == 0 {
          outBuffer[k] := Dot;
          k := k + 1;
        } else if i > 2 && segment[i - 1] == LF {
          outBuffer[k] := Dot;
          k := k + 1;
        }
      }
      outBuffer[k] := c;
      k := k + 1;
    }
    assert segment[..n] == segment;
    out := outBuffer[..k];
  }

  /** Dot-unstuffs a segment into an array of its own length. */
  method RemoveTransmissionPeriod(segment: seq<Byte>) returns (out: seq<Byte>)
    ensures out == Unstuffed(segment)
  {
    var n := |segment|;
    var outBuffer := new Byte[n];
    var k := 0;
    for i := 0 to n
      invariant k <= i
      invariant outBuffer[..k] == Unstuffed(segment[..i])
    {
      var c := segment[i];
      assert segment[..i + 1][..i] == segment[..i];
      if c == Dot {
        if i == 0 {
          continue;
        } else if i > 2 && segment[i - 1] == LF {
          continue;
        }
      }
      outBuffer[k] := c;
      k := k + 1;
    }
    assert segment[..n] == segment;
    out := outBuffer[..k];
  }
}
