/**
  Three small pieces of the live555 video source: the text of the warning
  for an OpenH264 decoding state (`MakeDecoderError`), the condition under
  which it is logged, and the receive buffer that prefixes every frame with
  the Annex B start code (ITU-T H.264, Annex B) before it is decoded.
*/
module Decoder {
  import opened Wrappers
  import opened Text
  import opened Numerals
  import opened RectJson

  // OpenH264's DECODING_STATE bits
  const FramePending: bv32 := 0x01
  const RefLost: bv32 := 0x02
  const BitstreamError: bv32 := 0x04
  const DepLayerLost: bv32 := 0x08
  const NoParamSets: bv32 := 0x10
  const DataErrorConcealed: bv32 := 0x20
  const RefListNullPtrs: bv32 := 0x40
  const InvalidArgument: bv32 := 0x1000
  const InitialOptExpected: bv32 := 0x2000
  const OutOfMemory: bv32 := 0x4000
  const DstBufNeedExpan: bv32 := 0x8000

  /** The states `MakeDecoderError` names, in the order it tests them. */
  const Flags: seq<(bv32, string)> := [
    (FramePending, "FramePending"),
    (RefLost, "RefLost"),
    (BitstreamError, "BitstreamError"),
    (DepLayerLost, "DepLayerLost"),
    (NoParamSets, "NoParamSets"),
    (DataErrorConcealed, "DataErrorConcealed"),
    (RefListNullPtrs, "RefListNullPtrs"),
    (InvalidArgument, "InvalidArgument"),
    (InitialOptExpected, "InitialOptExpected"),
    (OutOfMemory, "OutOfMemory"),
    (DstBufNeedExpan, "DstBufNeedExpan")
  ]

  /** Whether `state` has any of the bits of `mask`. */
  predicate HasBit(state: bv32, mask: bv32) {
    state & mask != 0
  }

  /** The names of the bits of `state` among `table`, in table order. */
  function NamesIn(state: bv32, table: seq<(bv32, string)>): (r: seq<string>)
    ensures |r| <= |table|
  {
    if |table| == 0 then []
    else
      var rest := NamesIn(state, table[1..]);
      if HasBit(state, table[0].0) then [table[0].1] + rest else rest
  }

  predicate DistinctNames(table: seq<(bv32, string)>) {
    forall i, j :: 0 <= i < j < |table| ==> table[i].1 != table[j].1
  }

  /** A name the table does not hold is never listed. */
  lemma {:induction false} NotInNames(state: bv32, table: seq<(bv32, string)>, x: string)
    requires forall k :: 0 <= k < |table| ==> table[k].1 != x
    ensures x !in NamesIn(state, table)
    decreases |table|
  {
    if |table| > 0 {
      assert forall k :: 0 <= k < |table| - 1 ==> table[1..][k] == table[k + 1];
      NotInNames(state, table[1..], x);
    }
  }

  /** With distinct names, the first name is not among the names the rest of the table yields. */
  lemma HeadNotInTail(state: bv32, table: seq<(bv32, string)>)
    requires DistinctNames(table) && |table| > 0
    ensures table[0].1 !in NamesIn(state, table[1..])
  {
    assert forall k :: 0 <= k < |table| - 1 ==> table[1..][k] == table[k + 1] && table[k + 1].1 != table[0].1;
    NotInNames(state, table[1..], table[0].1);
  }

  /** In a table of distinct names, a name is listed exactly when its bit is set. */
  lemma {:induction false} NamesInIff(state: bv32, table: seq<(bv32, string)>, i: nat)
    requires DistinctNames(table)
    requires i < |table|
    ensures table[i].1 in NamesIn(state, table) <==> HasBit(state, table[i].0)
    decreases |table|
  {
    var rest := NamesIn(state, table[1..]);
    if i == 0 {
      HeadNotInTail(state, table);
    } else {
      DistinctTail(table);
      assert table[1..][i - 1] == table[i];
      NamesInIff(state, table[1..], i - 1);
      ConsMember(table[i].1, table[0].1, rest);
    }
  }

  lemma ConsMember(x: string, h: string, rest: seq<string>)
    requires x != h
    ensures x in [h] + rest <==> x in rest
  {
  }

  lemma DistinctTail(table: seq<(bv32, string)>)
    requires DistinctNames(table) && |table| > 0
    ensures DistinctNames(table[1..])
  {
    assert forall k :: 0 <= k < |table| - 1 ==> table[1..][k] == table[k + 1];
  }

  /** The flag names are pairwise distinct: each pair differs in its first letter or its length. */
  lemma FlagsDistinct()
    ensures DistinctNames(Flags)
  {
    forall i, j | 0 <= i < j < |Flags| ensures Flags[i].1 != Flags[j].1 {
      assert Flags[i].1[0] != Flags[j].1[0] || |Flags[i].1| != |Flags[j].1|;
    }
  }

  function FlagNames(state: bv32): seq<string> {
    NamesIn(state, Flags)
  }

  /** Each listed name is present exactly when its bit is set. */
  lemma FlagNameIff(state: bv32, i: nat)
    requires i < |Flags|
    ensures Flags[i].1 in FlagNames(state) <==> state & Flags[i].0 != 0
  {
    FlagsDistinct();
    NamesInIff(state, Flags, i);
  }

  /** `{:X}` of a C++ `int`: upper-case hexadecimal, with a '-' when negative. */
  function HexOfInt(i: int): (s: string)
    ensures |s| >= 1 && ')' !in s
  {
    var digits := HexString(if i < 0 then -i else i);
    assert forall k :: 0 <= k < |digits| ==> digits[k] in HexAlphabet;
    if i < 0 then "-" + digits else digits
  }

  const MessagePrefix: string := "Errors decoding stream ("

  /**
    `MakeDecoderError(state, errMask)`: the state as a signed hexadecimal
    number, then the names of its set bits joined by ", ". `errMask` plays no
    part.
  */
  function MakeDecoderError(state: bv32, errMask: bv32): (msg: string)
    ensures StartsWith(msg, MessagePrefix)
  {
    var msg := MessagePrefix + HexOfInt(WrapInt32(state as int)) + "): " + Join(FlagNames(state), ", ");
    assert msg[..|MessagePrefix|] == MessagePrefix;
    msg
  }

  /** A state with none of the named bits (state 0 among them) gives an empty list after the colon. */
  lemma {:induction false} NoBitsNoNames(state: bv32, table: seq<(bv32, string)>)
    requires forall i :: 0 <= i < |table| ==> !HasBit(state, table[i].0)
    ensures NamesIn(state, table) == []
    decreases |table|
  {
    if |table| > 0 {
      assert forall i :: 0 <= i < |table[1..]| ==> table[1..][i] == table[i + 1];
      NoBitsNoNames(state, table[1..]);
    }
  }

  lemma NoFlagsNoNames(state: bv32, errMask: bv32)
    requires state & 0xF07F == 0
    ensures FlagNames(state) == []
    ensures MakeDecoderError(state, errMask) == MessagePrefix + HexOfInt(WrapInt32(state as int)) + "): "
  {
    forall i | 0 <= i < |Flags|
      ensures !HasBit(state, Flags[i].0)
    {
      MaskedOut(state, 0xF07F, Flags[i].0);
    }
    NoBitsNoNames(state, Flags);
  }

  /** A bit inside a mask that `state` clears is clear in `state`. */
  lemma MaskedOut(state: bv32, mask: bv32, bit: bv32)
    requires state & mask == 0 && bit & mask == bit
    ensures !HasBit(state, bit)
  {
    assert state & bit == state & (bit & mask) == (state & mask) & bit;
  }

  /** The parameter `errMask` is never read. */
  lemma MaskUnused(state: bv32, m1: bv32, m2: bv32)
    ensures MakeDecoderError(state, m1) == MakeDecoderError(state, m2)
  {
  }

  /** Reads `-`-signed upper-case hexadecimal. */
  function ParseHexInt(s: string): Option<int> {
    if |s| > 0 && s[0] == '-' then
      match ParseNat(s[1..], HexAlphabet)
      case Some(n) => var m: int := n; Some(-m)
      case None => None
    else
      match ParseNat(s, HexAlphabet)
      case Some(n) => Some(n)
      case None => None
  }

  lemma HexOfIntRoundTrip(i: int)
    ensures ParseHexInt(HexOfInt(i)) == Some(i)
  {
    if i < 0 {
      assert HexOfInt(i)[1..] == HexString(-i);
    } else {
      var s := HexString(i);
      assert s[0] in HexAlphabet;
    }
  }

  /** Reads a warning back into the reported state and the list of names. */
  function ParseDecoderError(msg: string): Option<(int, seq<string>)> {
    if !StartsWith(msg, MessagePrefix) then None
    else ParseStateAndNames(msg[|MessagePrefix|..])
  }

  /** Reads `<hex>): <name>, <name>, ...`, the part after the fixed prefix. */
  function ParseStateAndNames(rest: string): Option<(int, seq<string>)> {
    if ')' !in rest then None
    else
      var i := FirstIndex(rest, ')');
      if !(i + 3 <= |rest| && rest[i..i + 3] == "): ") then None
      else
        match ParseHexInt(rest[..i])
        case None => None
        case Some(v) =>
          var tail := rest[i + 3..];
          Some((v, if tail == [] then [] else SplitCommaSpace(tail)))
  }

  /** Every name is non-empty and free of commas. */
  predicate PlainNames(xs: seq<string>) {
    forall k :: 0 <= k < |xs| ==> ',' !in xs[k] && xs[k] != []
  }

  /** Names of a table whose names are non-empty and comma-free are non-empty and comma-free. */
  lemma {:induction false} NamesInCommaFree(state: bv32, table: seq<(bv32, string)>)
    requires forall k :: 0 <= k < |table| ==> ',' !in table[k].1 && table[k].1 != []
    ensures PlainNames(NamesIn(state, table))
    decreases |table|
  {
    if |table| > 0 {
      assert forall k :: 0 <= k < |table| - 1 ==> table[1..][k] == table[k + 1];
      NamesInCommaFree(state, table[1..]);
      var rest := NamesIn(state, table[1..]);
      if HasBit(state, table[0].0) {
        var r := [table[0].1] + rest;
        assert NamesIn(state, table) == r;
        assert r[0] == table[0].1;
        assert forall k :: 0 < k < |r| ==> r[k] == rest[k - 1];
      } else {
        assert NamesIn(state, table) == rest;
      }
    }
  }

  lemma FlagNamesCommaFree(state: bv32)
    ensures PlainNames(FlagNames(state))
  {
    assert forall k :: 0 <= k < |Flags| ==> ',' !in Flags[k].1 && Flags[k].1 != [];
    NamesInCommaFree(state, Flags);
  }

  /** How the parser takes apart the text after the prefix. */
  lemma ParseStateAndNamesShape(hex: string, v: int, joined: string)
    requires ')' !in hex && ParseHexInt(hex) == Some(v)
    ensures ParseStateAndNames(hex + "): " + joined)
      == Some((v, if joined == [] then [] else SplitCommaSpace(joined)))
  {
    var rest := hex + "): " + joined;
    assert rest == hex + ("): " + joined);
    FirstIndexAfter(hex, "): " + joined, ')');
    assert rest[..|hex|] == hex;
    assert rest[|hex|..|hex| + 3] == "): ";
    assert rest[|hex| + 3..] == joined;
  }

  /** How the parser takes apart a message of the shape `MakeDecoderError` writes. */
  lemma ParseMessageShape(hex: string, v: int, joined: string)
    requires ')' !in hex && ParseHexInt(hex) == Some(v)
    ensures ParseDecoderError(MessagePrefix + hex + "): " + joined)
      == Some((v, if joined == [] then [] else SplitCommaSpace(joined)))
  {
    var msg := MessagePrefix + hex + "): " + joined;
    assert msg == MessagePrefix + (hex + "): " + joined);
    assert msg[..|MessagePrefix|] == MessagePrefix;
    assert msg[|MessagePrefix|..] == hex + "): " + joined;
    ParseStateAndNamesShape(hex, v, joined);
  }

  lemma JoinNonEmpty(xs: seq<string>, sep: string)
    requires |xs| > 0 && xs[0] != []
    ensures Join(xs, sep) != []
  {
    if |xs| > 1 {
      assert Join(xs, sep) == xs[0] + sep + Join(xs[1..], sep);
    }
  }

  /** The warning text determines the state (as a signed `int`) and the exact list of names. */
  lemma DecoderErrorRoundTrip(state: bv32, errMask: bv32)
    ensures ParseDecoderError(MakeDecoderError(state, errMask)) == Some((WrapInt32(state as int), FlagNames(state)))
  {
    var names := FlagNames(state);
    var hex := HexOfInt(WrapInt32(state as int));
    var joined := Join(names, ", ");
    HexOfIntRoundTrip(WrapInt32(state as int));
    ParseMessageShape(hex, WrapInt32(state as int), joined);
    FlagNamesCommaFree(state);
    if names != [] {
      SplitJoinCommaSpace(names);
      JoinNonEmpty(names, ", ");
    }
  }

  /** The mask under which a decoding result is logged. */
  const WarnMask: bv32 := BitstreamError | NoParamSets | DepLayerLost

  /** A decoding result is logged when it is non-zero and has one of the masked bits. */
  predicate ShouldWarn(res: bv32) {
    res != 0 && res & WarnMask != 0
  }

  /** A result is logged exactly when its warning names a bitstream error, missing parameter sets or a lost dependency layer. */
  lemma ShouldWarnIffNamed(res: bv32)
    ensures ShouldWarn(res) <==>
      "BitstreamError" in FlagNames(res) || "NoParamSets" in FlagNames(res) || "DepLayerLost" in FlagNames(res)
  {
    FlagNameIff(res, 2);
    FlagNameIff(res, 3);
    FlagNameIff(res, 4);
    assert res & WarnMask != 0 <==> res & BitstreamError != 0 || res & NoParamSets != 0 || res & DepLayerLost != 0;
  }

  /** The Annex B start code. */
  const StartCode: seq<bv8> := [0x00, 0x00, 0x01]

  /** `FrameSetterSink`'s receive buffer. */
  datatype Sink = Sink(buffer: seq<bv8>)

  predicate Framed(s: Sink) {
    |s.buffer| >= 3 && s.buffer[..3] == StartCode
  }

  /** The constructor: a zeroed buffer of `size` bytes whose first three become the start code; fewer than three bytes throw. */
  function NewSink(size: nat): (r: Option<Sink>)
    ensures r.Some? <==> size >= 3
    ensures r.Some? ==> Framed(r.value) && |r.value.buffer| == size
  {
    if size < 3 then None
    else Some(Sink(StartCode + seq(size - 3, _ => 0 as bv8)))
  }

  datatype Received = Received(sink: Sink, frameSize: nat, truncated: nat)

  /**
    `getNextFrame(buffer + 3, size - 3, ...)`: the frame is written after the
    start code; bytes beyond the capacity are dropped and counted as truncated.
  */
  function ReceiveFrame(s: Sink, frame: seq<bv8>): (r: Received)
    requires Framed(s)
    ensures Framed(r.sink) && |r.sink.buffer| == |s.buffer|
    ensures r.frameSize + r.truncated == |frame|
    ensures r.frameSize <= |s.buffer| - 3
    ensures r.sink.buffer[3..3 + r.frameSize] == frame[..r.frameSize]
  {
    var k := Min(|frame|, |s.buffer| - 3);
    var b := s.buffer[..3] + frame[..k] + s.buffer[3 + k..];
    assert b[..3] == s.buffer[..3];
    assert b[3..3 + k] == frame[..k];
    Received(Sink(b), k, |frame| - k)
  }

  /** `DecodeFrameNoDelay(buffer, frameSize + 3, ...)`: the bytes handed to the decoder. */
  function DecoderInput(s: Sink, frameSize: nat): seq<bv8>
    requires frameSize + 3 <= |s.buffer|
  {
    s.buffer[..frameSize + 3]
  }

  /** The decoder always sees the start code followed by the (possibly truncated) frame. */
  lemma DecoderSeesAnnexBUnit(s: Sink, frame: seq<bv8>)
    requires Framed(s)
    ensures var r := ReceiveFrame(s, frame);
      DecoderInput(r.sink, r.frameSize) == StartCode + frame[..r.frameSize]
  {
    var r := ReceiveFrame(s, frame);
    var inp := DecoderInput(r.sink, r.frameSize);
    assert inp[..3] == StartCode;
    assert inp[3..] == frame[..r.frameSize];
  }
}
