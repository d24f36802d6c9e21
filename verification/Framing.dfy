/** Length-prefixed frames: a little-endian 32-bit length, then that many bytes. */
module Framing {
  import opened Outcomes
  import opened Bytes

  const FRAME_LEN_BYTES: nat := 4
  const U32_MAX: nat := 0xFFFF_FFFF

  type Payload = seq<byte>

  predicate Fits(payload: Payload) {
    |payload| < Limit(FRAME_LEN_BYTES)
  }

  function Frame(payload: Payload): seq<byte>
    requires Fits(payload)
  {
    ToLittleEndian(|payload|, FRAME_LEN_BYTES) + payload
  }

  function Frames(payloads: seq<Payload>): seq<byte>
    requires forall p :: p in payloads ==> Fits(p)
  {
    if payloads == [] then [] else Frame(payloads[0]) + Frames(payloads[1..])
  }

  /** What one read makes of the bytes ahead of it: a payload and the bytes after it, or the end of the stream. */
  function ReadOne(bytes: seq<byte>): Option<(Payload, seq<byte>)> {
    if |bytes| < FRAME_LEN_BYTES then None
    else
      var len := FromLittleEndian(bytes[..FRAME_LEN_BYTES]);
      if |bytes| < FRAME_LEN_BYTES + len then None
      else Some((bytes[FRAME_LEN_BYTES..FRAME_LEN_BYTES + len], bytes[FRAME_LEN_BYTES + len..]))
  }

  function ReadMany(bytes: seq<byte>, n: nat): Option<(seq<Payload>, seq<byte>)> {
    if n == 0 then Some(([], bytes))
    else
      match ReadOne(bytes)
      case None => None
      case Some((payload, rest)) =>
        match ReadMany(rest, n - 1)
        case None => None
        case Some((payloads, last)) => Some(([payload] + payloads, last))
  }

  /** A byte channel: what has been written to it, and how far it has been read. */
  class Channel {
    var bytes: seq<byte>
    var pos: nat

    ghost predicate Valid()
      reads this
    {
      pos <= |bytes|
    }

    constructor ()
      ensures Valid() && bytes == [] && pos == 0
    {
      bytes, pos := [], 0;
    }

    /** An oversized payload is refused before anything is written. */
    method WriteFrame(payload: Payload) returns (r: Result<(), string>)
      requires Valid()
      modifies this`bytes
      ensures Valid() && (Fits(payload) <==> |payload| <= U32_MAX)
      ensures Fits(payload) ==> r.Ok? && bytes == old(bytes) + Frame(payload)
      ensures !Fits(payload) ==> r.Err? && bytes == old(bytes)
    {
      Limits();
      if |payload| > U32_MAX {
        return Err("IPC payload size exceeds u32::MAX");
      }
      bytes := bytes + ToLittleEndian(|payload|, 4);
      bytes := bytes + payload;
      assert bytes == old(bytes) + Frame(payload);
      return Ok(());
    }

    /** Reads exactly `n` bytes, or runs into the end of the stream. */
    method ReadExact(n: nat) returns (r: Result<seq<byte>, string>)
      requires Valid()
      modifies this`pos
      ensures Valid() && pos >= old(pos)
      ensures r.Ok? <==> old(pos) + n <= |bytes|
      ensures r.Ok? ==> r.value == bytes[old(pos)..old(pos) + n] && pos == old(pos) + n
    {
      if |bytes| - pos < n {
        pos := |bytes|;
        return Err("failed to fill whole buffer");
      }
      r := Ok(bytes[pos..pos + n]);
      pos := pos + n;
    }

    method ReadFrame() returns (r: Result<Payload, string>)
      requires Valid()
      modifies this`pos
      ensures Valid()
      ensures r.Ok? <==> ReadOne(bytes[old(pos)..]).Some?
      ensures r.Ok? ==> ReadOne(bytes[old(pos)..]).value == (r.value, bytes[pos..])
    {
      ghost var ahead := bytes[pos..];
      var lenBytes := ReadExact(FRAME_LEN_BYTES);
      if lenBytes.Err? {
        return Err(lenBytes.error);
      }
      var len := FromLittleEndian(lenBytes.value);
      assert ahead[..FRAME_LEN_BYTES] == lenBytes.value;
      r := ReadExact(len);
      assert r.Ok? ==>
        ahead[FRAME_LEN_BYTES..FRAME_LEN_BYTES + len] == r.value && ahead[FRAME_LEN_BYTES + len..] == bytes[pos..];
    }
  }

  // ---------- A concatenated stream ----------

  lemma {:induction false} ReadOneUndoesFrame(payload: Payload, rest: seq<byte>)
    requires Fits(payload)
    ensures ReadOne(Frame(payload) + rest) == Some((payload, rest))
  {
    LittleEndianRoundTrip(|payload|, FRAME_LEN_BYTES);
    var bytes := Frame(payload) + rest;
    assert bytes[..FRAME_LEN_BYTES] == ToLittleEndian(|payload|, FRAME_LEN_BYTES);
    assert bytes[FRAME_LEN_BYTES..FRAME_LEN_BYTES + |payload|] == payload;
    assert bytes[FRAME_LEN_BYTES + |payload|..] == rest;
  }

  lemma {:induction false} ReadNext(
        bytes: seq<byte>, payload: Payload, rest: seq<byte>, payloads: seq<Payload>, last: seq<byte>)
    requires ReadOne(bytes) == Some((payload, rest)) && ReadMany(rest, |payloads|) == Some((payloads, last))
    ensures ReadMany(bytes, |payloads| + 1) == Some(([payload] + payloads, last))
  {
  }

  /** As many reads as there were writes return the payloads in order and stop exactly at what follows. */
  lemma {:induction false} ReadsUndoWrites(payloads: seq<Payload>, rest: seq<byte>)
    requires forall p :: p in payloads ==> Fits(p)
    ensures ReadMany(Frames(payloads) + rest, |payloads|) == Some((payloads, rest))
  {
    hide ReadOne, Frame, Limit, Fits;
    if payloads == [] {
      assert Frames(payloads) + rest == rest;
    } else {
      var first, tail := payloads[0], payloads[1..];
      var later := Frames(tail) + rest;
      assert [first] + tail == payloads;
      assert Frames(payloads) + rest == Frame(first) + later;
      ReadOneUndoesFrame(first, later);
      ReadsUndoWrites(tail, rest);
      ReadNext(Frames(payloads) + rest, first, later, tail, rest);
    }
  }

  lemma {:induction false} CutFrameIsRefused(payload: Payload, rest: seq<byte>, cut: nat)
    requires Fits(payload) && cut <= |Frame(payload) + rest|
    ensures var bytes := (Frame(payload) + rest)[..cut];
            if cut < |Frame(payload)| then ReadOne(bytes).None?
            else ReadOne(bytes) == Some((payload, rest[..cut - |Frame(payload)|]))
  {
    var all := Frame(payload) + rest;
    var bytes := all[..cut];
    if cut >= |Frame(payload)| {
      assert bytes == Frame(payload) + rest[..cut - |Frame(payload)|];
      ReadOneUndoesFrame(payload, rest[..cut - |Frame(payload)|]);
    } else if cut >= FRAME_LEN_BYTES {
      assert bytes[..FRAME_LEN_BYTES] == ToLittleEndian(|payload|, FRAME_LEN_BYTES);
      LittleEndianRoundTrip(|payload|, FRAME_LEN_BYTES);
    }
  }

  /** A stream that breaks off yields exactly the frames that lie wholly before the break. */
  lemma {:induction false} CutStreamYieldsWholeFrames(payloads: seq<Payload>, cut: nat, k: nat)
    requires (forall p :: p in payloads ==> Fits(p)) && k <= |payloads| && cut <= |Frames(payloads)|
    ensures ReadMany(Frames(payloads)[..cut], k).Some? <==> |Frames(payloads[..k])| <= cut
    ensures |Frames(payloads[..k])| <= cut ==> ReadMany(Frames(payloads)[..cut], k).value.0 == payloads[..k]
    decreases k
  {
    hide ReadOne, Frame;
    if k > 0 {
      var first, later := Frame(payloads[0]), Frames(payloads[1..]);
      assert Frames(payloads) == first + later;
      CutFrameIsRefused(payloads[0], later, cut);
      assert payloads[..k][1..] == payloads[1..][..k - 1];
      assert Frames(payloads[..k]) == first + Frames(payloads[1..][..k - 1]);
      if cut >= |first| {
        CutStreamYieldsWholeFrames(payloads[1..], cut - |first|, k - 1);
        assert [payloads[0]] + payloads[1..][..k - 1] == payloads[..k];
      }
    }
  }
}
