// padMessageBody and stripPaddingMessageBody of signal/Padding.cpp.

module Padding {
  import opened Bytes

  const BLOCK_SIZE := 80
  const TERMINATOR: Byte := 0x80

  /** paddedMessageLength: whole blocks that hold the message and a terminator. */
  function PaddedMessageLength(messageLength: nat): nat {
    var withTerminator := messageLength + 1;
    var parts := withTerminator / BLOCK_SIZE;
    (if withTerminator % BLOCK_SIZE != 0 then parts + 1 else parts) * BLOCK_SIZE
  }

  function Padded(m: seq<Byte>): seq<Byte> {
    m + [TERMINATOR] + Fill(0, PaddedMessageLength(|m| + 1) - 2 - |m|)
  }

  method PadMessageBody(messageBody: seq<Byte>) returns (padded: array<Byte>)
    ensures fresh(padded) && padded[..] == Padded(messageBody)
  {
    var n := |messageBody|;
    padded := new Byte[PaddedMessageLength(n + 1) - 1](_ => 0);
    for i := 0 to n
      invariant padded[..i] == messageBody[..i]
      invariant forall j | i <= j < padded.Length :: padded[j] == 0
    {
      padded[i] := messageBody[i];
    }
    padded[n] := TERMINATOR;
    assert padded[..n] == messageBody;
  }

  /** The terminator at i and nothing but zeros behind it. */
  predicate EndsAt(s: seq<Byte>, i: nat)
    requires i < |s|
  {
    s[i] == 0x80 && forall j | i < j < |s| :: s[j] == 0
  }

  /** Cuts at the last non-zero byte if that is a terminator, and changes nothing otherwise. */
  method StripPaddingMessageBody(s: seq<Byte>) returns (out: seq<Byte>)
    ensures forall i: nat | i < |s| && EndsAt(s, i) :: out == s[..i]
    ensures (forall i: nat | i < |s| :: !EndsAt(s, i)) ==> out == s
  {
    var i := |s|;
    while i > 0
      invariant 0 <= i <= |s|
      invariant forall j | i <= j < |s| :: s[j] == 0
    {
      i := i - 1;
      if s[i] == TERMINATOR {
        assert EndsAt(s, i);
        return s[..i];
      }
      if s[i] != 0 {
        return s;
      }
    }
    return s;
  }

  /** There is one place to cut in a padded message, its end, whatever bytes the message ends in. */
  lemma PaddedEndsOnce(m: seq<Byte>, i: nat)
    requires i < |Padded(m)|
    ensures EndsAt(Padded(m), i) <==> i == |m|
    ensures Padded(m)[i] == if i < |m| then m[i] else if i == |m| then 0x80 else 0
    ensures Padded(m)[..|m|] == m
  {
    if i < |m| {
      assert Padded(m)[|m|] != 0;
    }
  }

  method RoundTrip(m: seq<Byte>) returns (out: seq<Byte>)
    ensures out == m
  {
    var padded := PadMessageBody(m);
    PaddedEndsOnce(m, |m|);
    out := StripPaddingMessageBody(padded[..]);
  }

  /** The padded length is the least number of the form 80k - 1 that has room for the terminator. */
  lemma PaddedLengthIsLeast(m: seq<Byte>, k: nat)
    ensures |Padded(m)| % 80 == 79 && |Padded(m)| >= |m| + 1
    ensures k * 80 - 1 >= |m| + 1 ==> k * 80 - 1 >= |Padded(m)|
  {
  }
}
