/** Decoding of a domain name in DNS wire format (a sequence of length-prefixed
    labels ended by a zero octet, sections 3.1 and 4.1.4 of RFC 1035), as
    `decode_dns_name` does it: labels of at most 63 octets, a name of at most
    255 octets, malformed input rejected with `None`. */
module DnsDecode {
  import opened Wrappers
  import opened Ints

  /** The octet pushed between labels. */
  const Dot: byte := 46
  /** Length octets from this value up are rejected (this covers the 0xC0 compression pointers). */
  const LabelLimit: nat := 0x40
  /** `buf` holds every label followed by a dot; it may not grow past this. */
  const BufLimit: nat := 256

  const EmptyIndex := "index out of bounds: src[0] on an empty slice"

  /** `buf.pop()`: drop the last octet, if any. */
  function PopLast(buf: seq<byte>): (r: seq<byte>)
    ensures |buf| > 0 ==> r + [buf[|buf| - 1]] == buf
    ensures |buf| == 0 ==> r == []
  {
    if |buf| == 0 then [] else buf[..|buf| - 1]
  }

  /** What the loop of `decode_dns_name` produces from the remaining input `src`
      when it has already pushed `buf`: one call per iteration. An abort is the
      panic of `src[0]` on an empty slice. */
  function Walk(src: seq<byte>, buf: seq<byte>): (r: Run<Option<seq<byte>>>)
    ensures |buf| <= BufLimit && r.Done? && r.value.Some? ==> |r.value.value| < BufLimit
    decreases |src|
  {
    if |src| == 0 then Abort(EmptyIndex)
    else if src[0] == 0 || |buf| > BufLimit then Done(Some(PopLast(buf)))
    else
      var len := src[0] as nat;
      if len >= LabelLimit then Done(None)
      else if |src| < len + 1 then Done(None)
      else
        var buf' := buf + src[1..len + 1] + [Dot];
        if |buf'| > BufLimit then Done(None)
        else Walk(src[len + 1..], buf')
  }

  /** The result of `decode_dns_name(src)`. */
  function Decode(src: seq<byte>): (r: Run<Option<seq<byte>>>)
    ensures |src| == 0 ==> r == Done(None)
    ensures |src| > 0 && src[0] >= LabelLimit ==> r == Done(None)
    ensures r.Done? && r.value.Some? ==> |r.value.value| <= 255
  {
    if |src| == 0 then Done(None) else Walk(src, [])
  }

  /** `decode_dns_name`: the loop reslices `src` and grows `buf` as the source does. */
  method DecodeDnsName(src0: seq<byte>) returns (r: Run<Option<seq<byte>>>)
    ensures r == Decode(src0)
  {
    if |src0| == 0 {
      return Done(None);
    }
    var src := src0;
    var buf: seq<byte> := [];
    while true
      invariant Walk(src, buf) == Decode(src0)
      invariant |buf| <= BufLimit
      decreases |src|
    {
      if |src| == 0 {
        return Abort(EmptyIndex);
      }
      if src[0] == 0 || |buf| > BufLimit {
        break;
      }
      var len := src[0] as nat;
      if len >= LabelLimit {
        return Done(None);
      }
      if |src| < len + 1 {
        return Done(None);
      }
      buf := buf + src[1..len + 1];
      buf := buf + [Dot];
      if |buf| > BufLimit {
        return Done(None);
      }
      src := src[len + 1..];
    }
    r := Done(Some(PopLast(buf)));
  }

  // ---------------------------------------------------------------------------
  // An independent description of the wire format, for the lemmas below.

  /** A label the decoder accepts between other labels: 1 to 63 octets. */
  ghost predicate ValidLabels(labels: seq<seq<byte>>) {
    forall i :: 0 <= i < |labels| ==> 1 <= |labels[i]| < LabelLimit
  }

  /** The labels, each preceded by its length octet, without the terminator. */
  function EncodeLabels(labels: seq<seq<byte>>): seq<byte>
    requires ValidLabels(labels)
  {
    if |labels| == 0 then [] else [|labels[0]| as byte] + labels[0] + EncodeLabels(labels[1..])
  }

  /** The wire form of a name: its labels and a zero octet. */
  function Encode(labels: seq<seq<byte>>): seq<byte>
    requires ValidLabels(labels)
  {
    EncodeLabels(labels) + [0]
  }

  /** Each label followed by a dot: the contents of `buf` after all labels. */
  function Dotted(labels: seq<seq<byte>>): seq<byte> {
    if |labels| == 0 then [] else labels[0] + [Dot] + Dotted(labels[1..])
  }

  /** The labels joined by dots, with no trailing dot. */
  function Join(labels: seq<seq<byte>>): seq<byte> {
    PopLast(Dotted(labels))
  }

  /** The number of octets `buf` reaches: every label plus its dot. */
  function BufSize(labels: seq<seq<byte>>): nat {
    if |labels| == 0 then 0 else |labels[0]| + 1 + BufSize(labels[1..])
  }

  lemma {:induction false} DottedSize(labels: seq<seq<byte>>)
    ensures |Dotted(labels)| == BufSize(labels)
  {
    if |labels| > 0 {
      DottedSize(labels[1..]);
    }
  }

  lemma {:induction false} WalkEncoded(labels: seq<seq<byte>>, rest: seq<byte>, buf: seq<byte>)
    requires ValidLabels(labels) && |buf| <= BufLimit
    ensures Walk(EncodeLabels(labels) + [0] + rest, buf)
         == Done(if |buf| + BufSize(labels) <= BufLimit then Some(PopLast(buf + Dotted(labels))) else None)
  {
    var src := EncodeLabels(labels) + [0] + rest;
    if |labels| == 0 {
      assert src[0] == 0;
      assert buf + Dotted(labels) == buf;
    } else {
      var l := labels[0];
      var tail := EncodeLabels(labels[1..]) + [0] + rest;
      assert src == [|l| as byte] + l + tail;
      assert src[0] == |l| && src[1..|l| + 1] == l && src[|l| + 1..] == tail;
      var buf' := buf + l + [Dot];
      if |buf'| <= BufLimit {
        WalkEncoded(labels[1..], rest, buf');
        assert buf' + Dotted(labels[1..]) == buf + Dotted(labels);
      }
    }
  }

  /** Round trip: the encoding of well-formed labels decodes to the labels joined
      by dots exactly when `buf` stays within 256 octets, and to `None` otherwise;
      whatever follows the zero octet is never read. */
  lemma DecodeEncode(labels: seq<seq<byte>>, rest: seq<byte>)
    requires ValidLabels(labels)
    ensures Decode(Encode(labels) + rest)
         == Done(if BufSize(labels) <= BufLimit then Some(Join(labels)) else None)
  {
    WalkEncoded(labels, rest, []);
    assert [] + Dotted(labels) == Dotted(labels);
  }

  lemma {:induction false} WalkAccepted(src: seq<byte>, buf: seq<byte>, name: seq<byte>)
      returns (labels: seq<seq<byte>>, rest: seq<byte>)
    requires |buf| <= BufLimit && Walk(src, buf) == Done(Some(name))
    ensures ValidLabels(labels) && src == Encode(labels) + rest
    ensures |buf| + BufSize(labels) <= BufLimit && name == PopLast(buf + Dotted(labels))
    decreases |src|
  {
    if src[0] == 0 {
      labels, rest := [], src[1..];
      WalkEnd(src, buf, name);
    } else {
      var len := src[0] as nat;
      WalkLabel(src, buf, name);
      var l := src[1..len + 1];
      var buf' := buf + l + [Dot];
      var tail := src[len + 1..];
      var labels';
      labels', rest := WalkAccepted(tail, buf', name);
      labels := [l] + labels';
      AcceptedCons(src, buf, name, labels', rest);
    }
  }

  /** One recursion step of `WalkAccepted`: the label in front of the rest. */
  lemma AcceptedCons(src: seq<byte>, buf: seq<byte>, name: seq<byte>, labels: seq<seq<byte>>, rest: seq<byte>)
    requires |src| > 0 && 0 < src[0] as nat < LabelLimit && src[0] as nat + 1 <= |src|
    requires var len := src[0] as nat;
      var buf' := buf + src[1..len + 1] + [Dot];
      ValidLabels(labels) && src[len + 1..] == Encode(labels) + rest
      && |buf'| + BufSize(labels) <= BufLimit && name == PopLast(buf' + Dotted(labels))
    ensures var ls := [src[1..src[0] as nat + 1]] + labels;
      ValidLabels(ls) && src == Encode(ls) + rest
      && |buf| + BufSize(ls) <= BufLimit && name == PopLast(buf + Dotted(ls))
  {
    var len := src[0] as nat;
    var l := src[1..len + 1];
    EncodeCons(l, labels, rest);
    assert src == [src[0]] + l + src[len + 1..];
    assert buf + l + [Dot] + Dotted(labels) == buf + Dotted([l] + labels);
  }

  /** The zero octet: the name is `buf` without its last dot. */
  lemma WalkEnd(src: seq<byte>, buf: seq<byte>, name: seq<byte>)
    requires |buf| <= BufLimit && Walk(src, buf) == Done(Some(name)) && src[0] == 0
    ensures ValidLabels([]) && src == Encode([]) + src[1..]
    ensures |buf| + BufSize([]) <= BufLimit && name == PopLast(buf + Dotted([]))
  {
    assert buf + Dotted([]) == buf;
  }

  /** One accepted label: what `Walk` checked before it recursed. */
  lemma WalkLabel(src: seq<byte>, buf: seq<byte>, name: seq<byte>)
    requires |buf| <= BufLimit && Walk(src, buf) == Done(Some(name)) && src[0] != 0
    ensures 0 < src[0] as nat < LabelLimit && src[0] as nat + 1 <= |src|
    ensures var len := src[0] as nat;
      |buf + src[1..len + 1] + [Dot]| <= BufLimit && Walk(src[len + 1..], buf + src[1..len + 1] + [Dot]) == Done(Some(name))
  {
  }

  /** How a label in front shows in the encoding, `Dotted` and `BufSize`. */
  lemma EncodeCons(l: seq<byte>, labels: seq<seq<byte>>, rest: seq<byte>)
    requires 1 <= |l| < LabelLimit && ValidLabels(labels)
    ensures ValidLabels([l] + labels)
    ensures Encode([l] + labels) + rest == [|l| as byte] + l + (Encode(labels) + rest)
    ensures Dotted([l] + labels) == l + [Dot] + Dotted(labels)
    ensures BufSize([l] + labels) == |l| + 1 + BufSize(labels)
  {
    var ls := [l] + labels;
    assert ls[0] == l && ls[1..] == labels;
  }

  /** Soundness: every accepted input is the encoding of well-formed labels whose
      dotted form fits in 256 octets, followed by octets that were not read, and
      the result is those labels joined by dots. */
  lemma DecodeAccepted(src: seq<byte>, name: seq<byte>)
    requires Decode(src) == Done(Some(name))
    ensures exists labels: seq<seq<byte>>, rest: seq<byte> ::
              ValidLabels(labels) && src == Encode(labels) + rest
              && BufSize(labels) <= BufLimit && name == Join(labels)
  {
    var labels, rest := WalkAccepted(src, [], name);
    assert [] + Dotted(labels) == Dotted(labels);
  }

  /** The octets after the zero length octet are never read: appending more
      input does not change an accepted result. */
  lemma DecodeIgnoresTrailing(src: seq<byte>, name: seq<byte>, more: seq<byte>)
    requires Decode(src) == Done(Some(name))
    ensures Decode(src + more) == Done(Some(name))
  {
    var labels, rest := WalkAccepted(src, [], name);
    assert [] + Dotted(labels) == Dotted(labels);
    assert src + more == Encode(labels) + (rest + more);
    DecodeEncode(labels, rest + more);
  }

  /** A name whose labels end exactly at the end of the input, with no zero
      octet, makes the next `src[0]` index an empty slice. */
  lemma {:induction false} WalkUnterminated(labels: seq<seq<byte>>, buf: seq<byte>)
    requires ValidLabels(labels) && |buf| + BufSize(labels) <= BufLimit
    ensures Walk(EncodeLabels(labels), buf) == Abort(EmptyIndex)
  {
    if |labels| > 0 {
      var l := labels[0];
      var src := EncodeLabels(labels);
      assert src == [|l| as byte] + l + EncodeLabels(labels[1..]);
      assert src[0] == |l| && src[1..|l| + 1] == l && src[|l| + 1..] == EncodeLabels(labels[1..]);
      WalkUnterminated(labels[1..], buf + l + [Dot]);
    }
  }

  lemma DecodeUnterminated(labels: seq<seq<byte>>)
    requires ValidLabels(labels) && 0 < |labels| && BufSize(labels) <= BufLimit
    ensures Decode(EncodeLabels(labels)) == Abort(EmptyIndex)
  {
    WalkUnterminated(labels, []);
  }

  // ---------------------------------------------------------------------------
  // The cases the unit tests of `decode_dns_name` pin down.

  /** `n` copies of `x`. */
  function Repeat<T>(x: T, n: nat): (r: seq<T>)
    ensures |r| == n && forall i :: 0 <= i < n ==> r[i] == x
  {
    if n == 0 then [] else [x] + Repeat(x, n - 1)
  }

  lemma {:induction false} BufSizeRepeat(l: seq<byte>, n: nat)
    ensures BufSize(Repeat(l, n)) == n * (|l| + 1)
  {
    if n > 0 {
      assert Repeat(l, n)[1..] == Repeat(l, n - 1);
      BufSizeRepeat(l, n - 1);
    }
  }

  const Google: seq<byte> := [103, 111, 111, 103, 108, 101]
  const Com: seq<byte> := [99, 111, 109]
  const Abc: seq<byte> := [97, 98, 99]

  /** `simple`: "\x06google\x03com\0" decodes to "google.com". */
  lemma SimpleName()
    ensures Decode([6] + Google + [3] + Com + [0]) == Done(Some(Google + [Dot] + Com))
  {
    var labels: seq<seq<byte>> := [Google, Com];
    assert labels[1..] == [Com] && labels[1..][1..] == [];
    assert EncodeLabels(labels[1..]) == [3] + Com;
    assert Dotted(labels[1..]) == Com + [Dot];
    DecodeEncode(labels, []);
    assert Encode(labels) + [] == [6] + Google + [3] + Com + [0];
    assert Dotted(labels) == Google + [Dot] + Com + [Dot];
    assert BufSize(labels[1..]) == 4 && BufSize(labels) == 11;
    assert Join(labels) == Google + [Dot] + Com;
  }

  /** A lone zero octet is the empty name. */
  lemma RootName()
    ensures Decode([0]) == Done(Some([]))
  {
  }

  /** `maximum_length`: sixteen labels of fifteen octets give a 255-octet name. */
  lemma MaximumLength()
    ensures var labels := Repeat(Repeat(97 as byte, 15), 16);
            && Decode(Encode(labels)) == Done(Some(Join(labels)))
            && |Join(labels)| == 255
  {
    var labels := Repeat(Repeat(97 as byte, 15), 16);
    BufSizeRepeat(Repeat(97 as byte, 15), 16);
    DottedSize(labels);
    DecodeEncode(labels, []);
    assert Encode(labels) + [] == Encode(labels);
  }

  /** `too_long_domain`: 150 one-octet labels overflow the 256-octet buffer. */
  lemma TooLongDomain()
    ensures Decode(Encode(Repeat([97 as byte], 150))) == Done(None)
  {
    var labels := Repeat([97 as byte], 150);
    BufSizeRepeat([97 as byte], 150);
    DecodeEncode(labels, []);
    assert Encode(labels) + [] == Encode(labels);
  }

  /** `too_long_inner_part`: a length octet of 0x40 is rejected. */
  lemma TooLongInnerPart()
    ensures Decode([0x40] + Repeat(97 as byte, 64) + [0]) == Done(None)
  {
  }

  /** `too_long_run`: "\x05abc\0" declares more octets than there are. */
  lemma TooLongRun()
    ensures Decode([5] + Abc + [0]) == Done(None)
  {
  }

  /** "\x01a" has no zero octet: the decoder panics. */
  lemma MissingTerminator()
    ensures Decode([1, 97]) == Abort(EmptyIndex)
  {
    DecodeUnterminated([[97]]);
    assert EncodeLabels([[97]]) == [1, 97];
  }
}
