/** Pkt-line framing and the extraction of wanted object ids from an `upload-pack` request body
    (src/git.rs: `pkt_line`, `parse_wants`). The framing is that of gitprotocol-common(5), section
    "pkt-line Format", and gitprotocol-v2(5), section "Packet-Line Framing". */
module PktLine {
  import opened Common

  const PLUS: byte := 43
  const WANT: Bytes := [119, 97, 110, 116, 32] // "want "
  const MAX_PAYLOAD: nat := 65531

  // ---------------------------------------------------------------------------------
  // Length prefixes
  // ---------------------------------------------------------------------------------

  predicate IsHex(b: byte) { 48 <= b <= 57 || 65 <= b <= 70 || 97 <= b <= 102 }

  function HexValue(b: byte): (v: nat)
    requires IsHex(b)
    ensures v < 16
  {
    if b <= 57 then b - 48 else if b <= 70 then b - 55 else b - 87
  }

  const DIGITS := "0123456789abcdef"
  const CAPITALS := "0123456789ABCDEF"

  /** The sixteen digits, in either case. */
  lemma HexIsHexadecimal(b: byte, d: nat)
    requires d < 16
    ensures (b == DIGITS[d] as int || b == CAPITALS[d] as int) <==> IsHex(b) && HexValue(b) == d
    ensures HexDigit(d) == DIGITS[d] as int
  {
  }

  /** The value of a string of hex digits, if that is what it is. */
  function ParseHex(s: Bytes): Option<nat> {
    if s == [] then Some(0) else
      var front := ParseHex(s[..|s| - 1]);
      if front.Some? && IsHex(s[|s| - 1]) then Some(front.value * 16 + HexValue(s[|s| - 1])) else None
  }

  /** `usize::from_str_radix(_, 16)` on four bytes: an optional `+`, then digits of either case.
      Bytes that are not UTF-8 are not digits either. */
  function ParseLength(h: Bytes): Option<nat>
    requires |h| == 4
  {
    ParseHex(if h[0] == PLUS then h[1..] else h)
  }

  lemma {:induction false} ParseHexBound(s: Bytes)
    requires ParseHex(s).Some? && |s| <= 4
    ensures ParseHex(s).value <= [0, 15, 255, 4095, 65535][|s|]
    decreases |s|
  {
    if s != [] { ParseHexBound(s[..|s| - 1]); }
  }

  function HexDigit(d: nat): byte
    requires d < 16
  {
    if d < 10 then 48 + d else 87 + d
  }

  /** Lower-case hexadecimal, zero-padded to `width`. */
  function FormatHex(n: nat, width: nat): Bytes
    decreases n, width
  {
    if n == 0 && width == 0 then [] else
      FormatHex(n / 16, if width == 0 then 0 else width - 1) + [HexDigit(n % 16)]
  }

  lemma DigitReadsBack(d: nat)
    requires d < 16
    ensures IsHex(HexDigit(d)) && HexValue(HexDigit(d)) == d && HexDigit(d) != PLUS
  {
  }

  lemma ParseHexAppend(front: Bytes, d: nat)
    requires d < 16 && ParseHex(front).Some?
    ensures ParseHex(front + [HexDigit(d)]) == Some(ParseHex(front).value * 16 + d)
  {
    DigitReadsBack(d);
    var s := front + [HexDigit(d)];
    assert s[..|s| - 1] == front;
  }

  lemma {:induction false} FormatHexReadsBack(n: nat, width: nat)
    ensures ParseHex(FormatHex(n, width)) == Some(n)
    ensures |FormatHex(n, width)| >= width
    ensures FormatHex(n, width) != [] ==> FormatHex(n, width)[0] != PLUS
    decreases n, width
  {
    if !(n == 0 && width == 0) {
      var w := if width == 0 then 0 else width - 1;
      FormatHexReadsBack(n / 16, w);
      ParseHexAppend(FormatHex(n / 16, w), n % 16);
      DigitReadsBack(n % 16);
    }
  }

  lemma FormatHexFour(n: nat)
    requires n < 65536
    ensures |FormatHex(n, 4)| == 4
  {
    var a := n / 16;
    var b := a / 16;
    var c := b / 16;
    assert c / 16 == 0;
    assert FormatHex(0, 0) == [];
    assert |FormatHex(c, 1)| == 1;
    assert |FormatHex(b, 2)| == 2;
    assert |FormatHex(a, 3)| == 3;
  }

  // ---------------------------------------------------------------------------------
  // Frames
  // ---------------------------------------------------------------------------------

  /** Encode a payload as one pkt-line. */
  function Encode(payload: Bytes): Bytes { FormatHex(|payload| + 4, 4) + payload }

  /** What a frame is, without reference to any parser: a length prefix, and as many bytes as it
      says - or only the prefix, for the special packets with a length below four. */
  predicate IsFrame(f: Bytes) {
    && |f| >= 4
    && var l := ParseLength(f[..4]);
       l.Some? && |f| == if l.value < 4 then 4 else l.value
  }

  predicate AllFrames(fs: seq<Bytes>) { forall i :: 0 <= i < |fs| ==> IsFrame(fs[i]) }

  function Flatten(fs: seq<Bytes>): Bytes {
    if fs == [] then [] else fs[0] + Flatten(fs[1..])
  }

  /** The length of the frame at the start of `body`, if there is a whole one. */
  function FirstFrame(body: Bytes): (r: Option<nat>)
    ensures r.Some? ==> 4 <= r.value <= |body|
  {
    if |body| < 4 then None else
      var l := ParseLength(body[..4]);
      if l.None? then None
      else if l.value < 4 then Some(4)
      else if l.value > |body| then None
      else Some(l.value)
  }

  lemma FirstFrameIsFrame(body: Bytes, k: nat)
    requires k <= |body|
    ensures IsFrame(body[..k]) <==> FirstFrame(body) == Some(k)
  {
    if k >= 4 { assert body[..k][..4] == body[..4]; }
  }

  function Frames(body: Bytes): seq<Bytes>
    decreases |body|
  {
    var l := FirstFrame(body);
    if l.None? then [] else [body[..l.value]] + Frames(body[l.value..])
  }

  /** What follows the last whole frame. */
  function Leftover(body: Bytes): Bytes
    decreases |body|
  {
    var l := FirstFrame(body);
    if l.None? then body else Leftover(body[l.value..])
  }

  lemma {:induction false} FramesAreFrames(body: Bytes)
    ensures AllFrames(Frames(body))
    decreases |body|
  {
    var l := FirstFrame(body);
    if l.Some? {
      FramesAreFrames(body[l.value..]);
      FirstFrameIsFrame(body, l.value);
    }
  }

  lemma {:induction false} FramesAndLeftover(body: Bytes)
    ensures Flatten(Frames(body)) + Leftover(body) == body
    decreases |body|
  {
    var l := FirstFrame(body);
    if l.Some? {
      var f, rest := body[..l.value], body[l.value..];
      var fs, left := Frames(rest), Leftover(rest);
      FramesAndLeftover(rest);
      calc {
        Flatten(Frames(body)) + Leftover(body);
        Flatten([f] + fs) + left;
        { FlattenCons(f, fs, left); }
        f + (Flatten(fs) + left);
        f + rest;
        body;
      }
    }
  }

  lemma FlattenCons(f: Bytes, fs: seq<Bytes>, rest: Bytes)
    ensures Flatten([f] + fs) + rest == f + (Flatten(fs) + rest)
  {
    assert ([f] + fs)[1..] == fs;
  }

  lemma {:induction false} LeftoverHasNoFrame(body: Bytes)
    ensures FirstFrame(Leftover(body)).None?
    decreases |body|
  {
    if FirstFrame(body).Some? {
      LeftoverHasNoFrame(body[FirstFrame(body).value..]);
    }
  }

  /** The walk splits any body into whole frames and a leftover that starts with none. */
  lemma FramesCoverBody(body: Bytes)
    ensures AllFrames(Frames(body))
    ensures Flatten(Frames(body)) + Leftover(body) == body
    ensures forall k :: 0 <= k <= |Leftover(body)| ==> !IsFrame(Leftover(body)[..k])
  {
    FramesAreFrames(body);
    FramesAndLeftover(body);
    LeftoverHasNoFrame(body);
    forall k | 0 <= k <= |Leftover(body)| ensures !IsFrame(Leftover(body)[..k]) {
      FirstFrameIsFrame(Leftover(body), k);
    }
  }

  lemma FrameIsFirst(f: Bytes, rest: Bytes)
    requires IsFrame(f)
    ensures FirstFrame(f + rest) == Some(|f|)
  {
    assert (f + rest)[..4] == f[..4];
  }

  lemma FramesCons(f: Bytes, rest: Bytes)
    requires IsFrame(f)
    ensures Frames(f + rest) == [f] + Frames(rest)
  {
    FrameIsFirst(f, rest);
    assert (f + rest)[..|f|] == f && (f + rest)[|f|..] == rest;
  }

  /** Whole frames in front of anything are found as they are, and the walk goes on behind them. */
  lemma {:induction false} FramesOfConcatenation(fs: seq<Bytes>, rest: Bytes)
    requires AllFrames(fs)
    ensures Frames(Flatten(fs) + rest) == fs + Frames(rest)
    decreases |fs|
  {
    if fs == [] {
      assert Flatten(fs) + rest == rest;
    } else {
      var f, fs' := fs[0], fs[1..];
      assert fs == [f] + fs';
      FlattenCons(f, fs', rest);
      FramesOfConcatenation(fs', rest);
      FramesStep(f, fs', Flatten(fs') + rest, Frames(rest));
    }
  }

  lemma FramesStep(f: Bytes, fs: seq<Bytes>, tail: Bytes, more: seq<Bytes>)
    requires IsFrame(f) && Frames(tail) == fs + more
    ensures Frames(f + tail) == ([f] + fs) + more
  {
    FramesCons(f, tail);
    assert [f] + (fs + more) == ([f] + fs) + more;
  }

  /** The walk takes the longest well-framed prefix: any way of cutting any prefix of the body into
      frames is where the walk begins. */
  lemma WalkIsLongest(body: Bytes, fs: seq<Bytes>)
    requires AllFrames(fs) && Flatten(fs) <= body
    ensures fs <= Frames(body)
    ensures |Flatten(fs)| <= |Flatten(Frames(body))|
  {
    var n := |Flatten(fs)|;
    assert body == Flatten(fs) + body[n..];
    FramesOfConcatenation(fs, body[n..]);
    FlattenConcat(fs, Frames(body[n..]));
  }

  lemma {:induction false} FlattenConcat(a: seq<Bytes>, b: seq<Bytes>)
    ensures Flatten(a + b) == Flatten(a) + Flatten(b)
    decreases |a|
  {
    if a == [] {
      assert a + b == b;
    } else {
      assert (a + b)[1..] == a[1..] + b;
      FlattenConcat(a[1..], b);
    }
  }

  /** `pkt_line` produces a frame exactly for payloads whose length fits four hex digits. */
  lemma EncodeIsFrame(payload: Bytes)
    ensures IsFrame(Encode(payload)) <==> |payload| <= MAX_PAYLOAD
    ensures |payload| <= MAX_PAYLOAD ==> Encode(payload)[4..] == payload
  {
    var n := |payload| + 4;
    FormatHexReadsBack(n, 4);
    var h := FormatHex(n, 4);
    var f := Encode(payload);
    if |payload| <= MAX_PAYLOAD {
      FormatHexFour(n);
      assert f[..4] == h;
    } else {
      var d := f[..4];
      if ParseHex(d).Some? { ParseHexBound(d); }
      if ParseHex(d[1..]).Some? { ParseHexBound(d[1..]); }
    }
  }

  // ---------------------------------------------------------------------------------
  // Wants
  // ---------------------------------------------------------------------------------

  predicate AllHex(s: Bytes) { forall i :: 0 <= i < |s| ==> IsHex(s[i]) }

  function TakeHex(s: Bytes): (r: Bytes)
    ensures r <= s && AllHex(r)
    ensures |r| < |s| ==> !IsHex(s[|r|])
  {
    if s == [] || !IsHex(s[0]) then [] else [s[0]] + TakeHex(s[1..])
  }

  /** The object id a payload asks for, as the code reads it. */
  function WantIn(payload: Bytes): set<Bytes> {
    if !(WANT <= payload) then {} else
      var oid := TakeHex(payload[|WANT|..]);
      if |oid| == 40 || |oid| == 64 then {oid} else {}
  }

  function WantsIn(fs: seq<Bytes>): set<Bytes>
    requires AllFrames(fs)
  {
    if fs == [] then {} else WantIn(fs[0][4..]) + WantsIn(fs[1..])
  }

  /** A want line, described by its shape: `want `, forty or sixty-four hex digits, and then
      nothing more or something that is not a hex digit. */
  ghost predicate IsWantLine(payload: Bytes, oid: Bytes) {
    && AllHex(oid) && (|oid| == 40 || |oid| == 64)
    && WANT + oid <= payload
    && (|WANT + oid| < |payload| ==> !IsHex(payload[|WANT + oid|]))
  }

  /** The leading run of hex digits is the only hex prefix that nothing extends. */
  lemma {:induction false} TakeHexIs(s: Bytes, run: Bytes)
    requires run <= s && AllHex(run) && (|run| < |s| ==> !IsHex(s[|run|]))
    ensures TakeHex(s) == run
    decreases |run|
  {
    if run != [] {
      assert s[0] == run[0];
      TakeHexIs(s[1..], run[1..]);
    }
  }

  lemma PrefixSplits(a: Bytes, b: Bytes, s: Bytes)
    ensures a + b <= s <==> a <= s && b <= s[|a|..]
  {
    if a <= s && b <= s[|a|..] { assert s == a + s[|a|..]; }
    if a + b <= s {
      assert a == s[..|a + b|][..|a|];
      assert b == s[..|a + b|][|a|..];
    }
  }

  lemma WantInIsWantLine(payload: Bytes, oid: Bytes)
    ensures oid in WantIn(payload) <==> IsWantLine(payload, oid)
  {
    PrefixSplits(WANT, oid, payload);
    if IsWantLine(payload, oid) { TakeHexIs(payload[|WANT|..], oid); }
  }

  lemma {:induction false} WantsInConcatenation(a: seq<Bytes>, b: seq<Bytes>)
    requires AllFrames(a) && AllFrames(b)
    ensures WantsIn(a + b) == WantsIn(a) + WantsIn(b)
    decreases |a|
  {
    if a == [] {
      assert a + b == b;
    } else {
      assert (a + b)[1..] == a[1..] + b;
      WantsInConcatenation(a[1..], b);
    }
  }

  /** What `parse_wants` means: the wants of the longest well-framed prefix. */
  ghost function Wants(body: Bytes): set<Bytes> {
    FramesAreFrames(body);
    WantsIn(Frames(body))
  }

  lemma WantsUnfold(body: Bytes)
    ensures FirstFrame(body).None? ==> Wants(body) == {}
    ensures FirstFrame(body).Some? ==>
              var k := FirstFrame(body).value;
              Wants(body) == WantIn(body[4..k]) + Wants(body[k..])
  {
    FramesAreFrames(body);
    if FirstFrame(body).Some? {
      var k := FirstFrame(body).value;
      assert body[..k][4..] == body[4..k];
      assert Frames(body)[1..] == Frames(body[k..]);
    }
  }

  /** One turn of the cursor loop. */
  lemma CursorStep(body: Bytes, pos: nat)
    requires pos + 4 <= |body|
    ensures var l := ParseLength(body[pos..pos + 4]);
            var here := Wants(body[pos..]);
            if l.None? || (l.value >= 4 && pos + l.value > |body|) then here == {}
            else if l.value < 4 then here == Wants(body[pos + 4..])
            else here == WantIn(body[pos + 4..pos + l.value]) + Wants(body[pos + l.value..])
  {
    var here := body[pos..];
    WantsUnfold(here);
    assert here[..4] == body[pos..pos + 4];
    assert here[4..4] == [];
    SliceOfSlice(body, pos, 4, 4);
    var l := FirstFrame(here);
    if l.Some? { SliceOfSlice(body, pos, 4, l.value); }
  }

  lemma SliceOfSlice(body: Bytes, pos: nat, a: nat, b: nat)
    requires a <= b && pos + b <= |body|
    ensures body[pos..][a..b] == body[pos + a..pos + b]
    ensures body[pos..][b..] == body[pos + b..]
  {
  }

  /** The cursor loop. */
  method ParseWants(body: Bytes) returns (oids: set<Bytes>)
    ensures oids == Wants(body)
  {
    oids := {};
    var pos := 0;
    assert body[0..] == body;
    while pos + 4 <= |body|
      invariant 0 <= pos <= |body|
      invariant oids + Wants(body[pos..]) == Wants(body)
      decreases |body| - pos
    {
      CursorStep(body, pos);
      var len := ParseLength(body[pos..pos + 4]);
      if len.None? { return; }
      if len.value < 4 {
        pos := pos + 4;
        continue;
      }
      var end := pos + len.value;
      if end > |body| { return; }
      var payload := body[pos + 4..end];
      ghost var before := oids;
      if WANT <= payload {
        var oid := TakeHex(payload[|WANT|..]);
        if |oid| == 40 || |oid| == 64 {
          oids := oids + {oid};
        }
      }
      assert oids == before + WantIn(payload);
      pos := end;
    }
    WantsUnfold(body[pos..]);
  }

  // ---------------------------------------------------------------------------------
  // Round trip
  // ---------------------------------------------------------------------------------

  datatype Packet = Data(payload: Bytes) | Flush | Delim | ResponseEnd

  function EncodePacket(p: Packet): Bytes {
    match p
    case Data(payload) => Encode(payload)
    case Flush => [48, 48, 48, 48]
    case Delim => [48, 48, 48, 49]
    case ResponseEnd => [48, 48, 48, 50]
  }

  function EncodeAll(ps: seq<Packet>): Bytes {
    if ps == [] then [] else EncodePacket(ps[0]) + EncodeAll(ps[1..])
  }

  predicate Encodable(ps: seq<Packet>) {
    forall i :: 0 <= i < |ps| ==> ps[i].Data? ==> |ps[i].payload| <= MAX_PAYLOAD
  }

  lemma SpecialIsFrame(d: nat)
    requires d < 3
    ensures IsFrame([48, 48, 48, 48 + d])
  {
    var f: Bytes := [48, 48, 48, 48 + d];
    assert f[..4] == f;
    var z: Bytes := [48];
    assert z[..0] == [] && [48, 48][..1] == z && [48, 48, 48][..2] == [48, 48] && f[..3] == [48, 48, 48];
    assert ParseHex(z) == Some(0);
    assert ParseHex([48, 48]) == Some(0);
    assert ParseHex([48, 48, 48]) == Some(0);
    assert ParseHex(f) == Some(d);
  }

  /** After any encoded packets, the walk finds the wants of their payloads and goes on with
      whatever follows, well-framed or not. */
  lemma {:induction false} WantsOfPackets(ps: seq<Packet>, rest: Bytes, oid: Bytes)
    requires Encodable(ps)
    ensures oid in Wants(EncodeAll(ps) + rest) <==>
              || oid in Wants(rest)
              || exists i :: 0 <= i < |ps| && ps[i].Data? && IsWantLine(ps[i].payload, oid)
    decreases |ps|
  {
    if ps == [] {
      assert EncodeAll(ps) + rest == rest;
    } else {
      var f := EncodePacket(ps[0]);
      PacketIsFrame(ps[0]);
      var tail := EncodeAll(ps[1..]) + rest;
      assert EncodeAll(ps) + rest == f + tail;
      FrameThenWants(f, tail);
      WantsOfPackets(ps[1..], rest, oid);
      FirstOrLater(ps, oid);
      WantInIsWantLine(f[4..], oid);
    }
  }

  lemma PacketIsFrame(p: Packet)
    requires p.Data? ==> |p.payload| <= MAX_PAYLOAD
    ensures IsFrame(EncodePacket(p))
    ensures EncodePacket(p)[4..] == if p.Data? then p.payload else []
  {
    match p
    case Data(payload) => EncodeIsFrame(payload);
    case Flush => SpecialIsFrame(0);
    case Delim => SpecialIsFrame(1);
    case ResponseEnd => SpecialIsFrame(2);
  }

  lemma FirstOrLater(ps: seq<Packet>, oid: Bytes)
    requires ps != []
    ensures (exists i :: 0 <= i < |ps| && ps[i].Data? && IsWantLine(ps[i].payload, oid)) <==>
              || (ps[0].Data? && IsWantLine(ps[0].payload, oid))
              || exists i :: 0 <= i < |ps[1..]| && ps[1..][i].Data? && IsWantLine(ps[1..][i].payload, oid)
  {
    if i :| 0 < i < |ps| && ps[i].Data? && IsWantLine(ps[i].payload, oid) {
      assert ps[1..][i - 1] == ps[i];
    }
  }

  lemma FrameThenWants(f: Bytes, tail: Bytes)
    requires IsFrame(f)
    ensures Wants(f + tail) == WantIn(f[4..]) + Wants(tail)
  {
    assert Flatten([f]) + tail == f + tail by { assert Flatten([f]) == f + Flatten([][..]); }
    FramesOfConcatenation([f], tail);
    FramesAreFrames(tail);
    WantsInConcatenation([f], Frames(tail));
    assert WantsIn([f]) == WantIn(f[4..]) + WantsIn([][..]);
  }

  /** `parse_wants` distributes as a union over concatenation after any well-framed prefix. */
  lemma WantsAfterFrames(fs: seq<Bytes>, rest: Bytes)
    requires AllFrames(fs)
    ensures Wants(Flatten(fs) + rest) == Wants(Flatten(fs)) + Wants(rest)
  {
    FramesOfConcatenation(fs, rest);
    FramesOfConcatenation(fs, []);
    assert Flatten(fs) + [] == Flatten(fs) && fs + [] == fs;
    FramesAreFrames(rest);
    WantsInConcatenation(fs, Frames(rest));
  }

  // ---------------------------------------------------------------------------------
  // In characters
  // ---------------------------------------------------------------------------------

  function Ascii(s: string): Bytes
    requires forall i :: 0 <= i < |s| ==> s[i] as int < 128
  {
    seq(|s|, i requires 0 <= i < |s| => s[i] as int)
  }

  lemma WantSpelled()
    ensures WANT == Ascii("want ") && [PLUS] == Ascii("+")
    ensures EncodePacket(Flush) == Ascii("0000") && EncodePacket(Delim) == Ascii("0001")
    ensures EncodePacket(ResponseEnd) == Ascii("0002")
  {
  }

  function Value(b: byte): nat { if IsHex(b) then HexValue(b) else 0 }

  /** Four bytes are a length exactly if they are hex digits, of either case, the first of which may
      be a plus sign instead; and they are read as a number in base sixteen. */
  lemma LengthExactly(h: Bytes)
    requires |h| == 4
    ensures ParseLength(h).Some? <==> (IsHex(h[0]) || [h[0]] == Ascii("+")) && IsHex(h[1]) && IsHex(h[2]) && IsHex(h[3])
    ensures ParseLength(h).Some? ==>
              ParseLength(h).value == Value(h[0]) * 4096 + Value(h[1]) * 256 + Value(h[2]) * 16 + Value(h[3])
  {
    WantSpelled();
    if h[0] == PLUS {
      ThreeDigits(h[1..]);
    } else {
      ThreeDigits(h[..3]);
      assert ParseHex(h).Some? <==> ParseHex(h[..3]).Some? && IsHex(h[3]);
    }
  }

  lemma ThreeDigits(s: Bytes)
    requires |s| == 3
    ensures ParseHex(s).Some? <==> IsHex(s[0]) && IsHex(s[1]) && IsHex(s[2])
    ensures ParseHex(s).Some? ==> ParseHex(s).value == Value(s[0]) * 256 + Value(s[1]) * 16 + Value(s[2])
  {
    assert s[..2][..1] == [s[0]] && s[..2][1] == s[1];
    assert s[..1] == [s[0]] && [s[0]][..0] == [];
    assert ParseHex([s[0]]) == if IsHex(s[0]) then Some(Value(s[0])) else None;
    assert ParseHex(s[..2]).Some? <==> IsHex(s[0]) && IsHex(s[1]);
  }
}
