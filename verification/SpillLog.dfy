/**
 The host-output log: a reader thread cuts the captured byte stream into lines and appends one
 binary record per line to a spill file, which is parsed after the run.
 */
module SpillLog {
  import opened Outcomes
  import opened Bytes

  const LF: byte := 10
  const CR: byte := 13

  /** Eight bytes of timestamp, one of stream tag, four of length. */
  const HEADER: nat := 13

  datatype Record = Record(elapsedNs: nat, streamTag: byte, line: seq<byte>)

  predicate Encodable(r: Record) {
    r.elapsedNs < Limit(8) && |r.line| < Limit(4)
  }

  function Encode(r: Record): (bytes: seq<byte>)
    requires Encodable(r)
    ensures |bytes| == HEADER + |r.line|
  {
    ToLittleEndian(r.elapsedNs, 8) + [r.streamTag] + ToLittleEndian(|r.line|, 4) + r.line
  }

  function EncodeAll(rs: seq<Record>): seq<byte>
    requires forall r :: r in rs ==> Encodable(r)
  {
    if rs == [] then [] else Encode(rs[0]) + EncodeAll(rs[1..])
  }

  // ---------- Writing ----------

  /** The length of the next line with its newline, or of all that is left if there is none. */
  function LineLength(input: seq<byte>): (n: nat)
    ensures n <= |input| && (input != [] ==> n > 0)
    ensures forall i :: 0 <= i < n - 1 ==> input[i] != LF
    ensures n < |input| ==> input[n - 1] == LF
  {
    if input == [] then 0 else if input[0] == LF then 1 else 1 + LineLength(input[1..])
  }

  /** The raw lines of a stream: each but the last ends with its newline. */
  function RawLines(input: seq<byte>): seq<seq<byte>> {
    if input == [] then [] else [input[..LineLength(input)]] + RawLines(input[LineLength(input)..])
  }

  function WithoutLast(line: seq<byte>, b: byte): seq<byte> {
    if line != [] && line[|line| - 1] == b then line[..|line| - 1] else line
  }

  function Stripped(raw: seq<byte>): seq<byte> {
    WithoutLast(WithoutLast(raw, LF), CR)
  }

  function Saturated(n: nat, width: nat): (r: nat)
    ensures r < Limit(width)
  {
    if n < Limit(width) then n else Limit(width) - 1
  }

  /** The record of a line: an over-long line keeps its first 2^32 - 1 bytes. */
  function RecordOf(raw: seq<byte>, elapsedNs: nat): (r: Record)
    ensures Encodable(r)
  {
    var line := Stripped(raw);
    Record(Saturated(elapsedNs, 8), 0, line[..Saturated(|line|, 4)])
  }

  /** One record per raw line; `clock(k)` is the time at which the k-th line has been read. */
  function RecordsOf(input: seq<byte>, clock: nat -> nat, k: nat): (rs: seq<Record>)
    ensures forall r :: r in rs ==> Encodable(r)
    decreases |input|
  {
    if input == [] then []
    else
      var n := LineLength(input);
      [RecordOf(input[..n], clock(k))] + RecordsOf(input[n..], clock, k + 1)
  }

  lemma {:induction false} EncodeAllLast(rs: seq<Record>, r: Record)
    requires (forall x :: x in rs ==> Encodable(x)) && Encodable(r)
    ensures EncodeAll(rs + [r]) == EncodeAll(rs) + Encode(r)
  {
    hide Encode;
    if rs == [] {
      assert rs + [r] == [r] && EncodeAll([r]) == Encode(r) + [];
    } else {
      assert (rs + [r])[1..] == rs[1..] + [r];
      EncodeAllLast(rs[1..], r);
    }
  }

  method ReaderLoop(input: seq<byte>, clock: nat -> nat) returns (file: seq<byte>)
    ensures file == EncodeAll(RecordsOf(input, clock, 0))
  {
    hide EncodeAll, Encode, Limit, ToLittleEndian, RecordsOf, LineLength;
    var rest := input;
    var k := 0;
    ghost var done: seq<Record> := [];
    file := [];
    NothingEncodes(clock, 0);
    while rest != []
      invariant forall r :: r in done ==> Encodable(r)
      invariant RecordsOf(input, clock, 0) == done + RecordsOf(rest, clock, k)
      invariant file == EncodeAll(done)
      decreases |rest|
    {
      var n := LineLength(rest);
      var line := rest[..n];
      ghost var record := RecordOf(line, clock(k));
      NextRecord(rest, clock, k);
      if line != [] && line[|line| - 1] == LF {
        line := line[..|line| - 1];
      }
      if line != [] && line[|line| - 1] == CR {
        line := line[..|line| - 1];
      }
      var tsNs := Saturated(clock(k), 8);
      var streamTag: byte := 0;
      var len := Saturated(|line|, 4);
      assert record == Record(tsNs, streamTag, line[..len]);
      var header := ToLittleEndian(tsNs, 8) + [streamTag] + ToLittleEndian(len, 4);
      assert Encode(record) == header + line[..len] by { EncodeIs(record); }
      EncodeAllLast(done, record);
      file := file + header;
      file := file + line[..len];
      assert done + ([record] + RecordsOf(rest[n..], clock, k + 1)) ==
             done + [record] + RecordsOf(rest[n..], clock, k + 1);
      done := done + [record];
      rest, k := rest[n..], k + 1;
    }
    NothingEncodes(clock, k);
    assert done + [] == done;
  }

  lemma {:induction false} NothingEncodes(clock: nat -> nat, k: nat)
    ensures EncodeAll([]) == [] && RecordsOf([], clock, k) == []
  {
  }

  lemma {:induction false} NextRecord(input: seq<byte>, clock: nat -> nat, k: nat)
    requires input != []
    ensures var n := LineLength(input);
            RecordsOf(input, clock, k) == [RecordOf(input[..n], clock(k))] + RecordsOf(input[n..], clock, k + 1)
  {
  }

  lemma {:induction false} EncodeIs(r: Record)
    requires Encodable(r)
    ensures Encode(r) == ToLittleEndian(r.elapsedNs, 8) + [r.streamTag] + ToLittleEndian(|r.line|, 4) + r.line
  {
  }

  // ---------- Parsing ----------

  function ParseOne(bytes: seq<byte>): Option<(Record, seq<byte>)> {
    if |bytes| < HEADER then None
    else
      var len := FromLittleEndian(bytes[9..13]);
      if HEADER + len > |bytes| then None
      else Some((Record(FromLittleEndian(bytes[..8]), bytes[8], bytes[HEADER..HEADER + len]), bytes[HEADER + len..]))
  }

  function Parse(bytes: seq<byte>): seq<Record>
    decreases |bytes|
  {
    match ParseOne(bytes)
    case None => []
    case Some((r, rest)) => [r] + Parse(rest)
  }

  method ParseAll(bytes: seq<byte>) returns (out: seq<Record>)
    ensures out == Parse(bytes)
  {
    hide Parse, ParseOne, FromLittleEndian;
    out := [];
    var pos := 0;
    ghost var tail := Parse(bytes[pos..]);
    assert bytes[0..] == bytes;
    while pos + 13 <= |bytes|
      invariant 0 <= pos <= |bytes| && tail == Parse(bytes[pos..])
      invariant Parse(bytes) == out + tail
    {
      ParseAt(bytes, pos);
      var elapsedNs := FromLittleEndian(bytes[pos..pos + 8]);
      var streamTag := bytes[pos + 8];
      var lineLen := FromLittleEndian(bytes[pos + 9..pos + 13]);
      pos := pos + 13;
      if pos + lineLen > |bytes| {
        assert out + [] == out;
        return;
      }
      var line := bytes[pos..pos + lineLen];
      pos := pos + lineLen;
      ghost var r := Record(elapsedNs, streamTag, line);
      Associate(out, r, Parse(bytes[pos..]));
      tail := Parse(bytes[pos..]);
      out := out + [Record(elapsedNs, streamTag, line)];
    }
    ParseAt(bytes, pos);
    assert out + [] == out;
  }

  lemma {:induction false} Associate(out: seq<Record>, r: Record, tail: seq<Record>)
    ensures out + ([r] + tail) == out + [r] + tail
  {
  }

  lemma {:induction false} ParseAt(bytes: seq<byte>, pos: nat)
    requires pos <= |bytes|
    ensures pos + 13 > |bytes| ==> Parse(bytes[pos..]) == []
    ensures pos + 13 <= |bytes| ==>
              var len := FromLittleEndian(bytes[pos + 9..pos + 13]);
              if pos + 13 + len > |bytes| then Parse(bytes[pos..]) == []
              else
                Parse(bytes[pos..]) == [Record(FromLittleEndian(bytes[pos..pos + 8]), bytes[pos + 8],
                                               bytes[pos + 13..pos + 13 + len])] + Parse(bytes[pos + 13 + len..])
  {
    hide FromLittleEndian;
    var ahead := bytes[pos..];
    if pos + 13 <= |bytes| {
      assert ahead[..8] == bytes[pos..pos + 8] && ahead[9..13] == bytes[pos + 9..pos + 13];
      var len := FromLittleEndian(bytes[pos + 9..pos + 13]);
      if pos + 13 + len <= |bytes| {
        assert ahead[HEADER..HEADER + len] == bytes[pos + 13..pos + 13 + len];
        assert ahead[HEADER + len..] == bytes[pos + 13 + len..];
      }
    }
  }

  // ---------- Round trip, also of a file that was cut off ----------

  lemma {:induction false} ParseOneUndoesEncode(r: Record, rest: seq<byte>)
    requires Encodable(r)
    ensures ParseOne(Encode(r) + rest) == Some((r, rest))
  {
    hide ToLittleEndian, FromLittleEndian, Limit;
    LittleEndianRoundTrip(r.elapsedNs, 8);
    LittleEndianRoundTrip(|r.line|, 4);
    var bytes := Encode(r) + rest;
    assert bytes[..8] == ToLittleEndian(r.elapsedNs, 8);
    assert bytes[9..13] == ToLittleEndian(|r.line|, 4);
    assert bytes[HEADER..HEADER + |r.line|] == r.line;
    assert bytes[HEADER + |r.line|..] == rest;
  }

  lemma {:induction false} CutRecordIsDropped(r: Record, rest: seq<byte>, cut: nat)
    requires Encodable(r) && cut <= |Encode(r) + rest|
    ensures var bytes := (Encode(r) + rest)[..cut];
            if cut < |Encode(r)| then ParseOne(bytes).None? else ParseOne(bytes) == Some((r, rest[..cut - |Encode(r)|]))
  {
    hide ToLittleEndian, FromLittleEndian, Limit;
    var bytes := (Encode(r) + rest)[..cut];
    if cut >= |Encode(r)| {
      assert bytes == Encode(r) + rest[..cut - |Encode(r)|];
      ParseOneUndoesEncode(r, rest[..cut - |Encode(r)|]);
    } else if cut >= HEADER {
      assert bytes[9..13] == (Encode(r) + rest)[9..13] == Encode(r)[9..13] == ToLittleEndian(|r.line|, 4);
      LittleEndianRoundTrip(|r.line|, 4);
    }
  }

  /** How many records lie wholly within the first `cut` bytes. */
  ghost function WholeRecords(rs: seq<Record>, cut: nat): (n: nat)
    requires forall r :: r in rs ==> Encodable(r)
    ensures n <= |rs| && |EncodeAll(rs[..n])| <= cut
    ensures n < |rs| ==> cut < |EncodeAll(rs[..n + 1])|
  {
    if rs == [] || cut < |Encode(rs[0])| then
      assert rs != [] ==> rs[..1][1..] == [];
      0
    else
      var n := WholeRecords(rs[1..], cut - |Encode(rs[0])|);
      assert rs[..n + 1][1..] == rs[1..][..n];
      assert n + 1 < |rs| ==> rs[..n + 2][1..] == rs[1..][..n + 1];
      n + 1
  }

  /** Wherever the file is cut off, parsing returns exactly the records that lie wholly before the cut. */
  lemma {:induction false} ParseOfCutFile(rs: seq<Record>, cut: nat)
    requires (forall r :: r in rs ==> Encodable(r)) && cut <= |EncodeAll(rs)|
    ensures Parse(EncodeAll(rs)[..cut]) == rs[..WholeRecords(rs, cut)]
  {
    hide ParseOne, Encode;
    if rs == [] {
      NoRecordInNothing();
    } else {
      var first, later := Encode(rs[0]), EncodeAll(rs[1..]);
      CutRecordIsDropped(rs[0], later, cut);
      if cut >= |first| {
        ParseOfCutFile(rs[1..], cut - |first|);
        assert [rs[0]] + rs[1..][..WholeRecords(rs[1..], cut - |first|)] == rs[..WholeRecords(rs, cut)];
      }
    }
  }

  lemma {:induction false} NoRecordInNothing()
    ensures ParseOne([]).None?
  {
  }

  lemma {:induction false} ParseUndoesEncode(rs: seq<Record>)
    requires forall r :: r in rs ==> Encodable(r)
    ensures Parse(EncodeAll(rs)) == rs
  {
    var all := EncodeAll(rs);
    ParseOfCutFile(rs, |all|);
    assert all[..|all|] == all;
    var n := WholeRecords(rs, |all|);
    if n < |rs| {
      PrefixIsNoLonger(rs, n + 1);
    }
    assert rs[..|rs|] == rs;
  }

  lemma {:induction false} PrefixIsNoLonger(rs: seq<Record>, n: nat)
    requires (forall r :: r in rs ==> Encodable(r)) && n <= |rs|
    ensures |EncodeAll(rs[..n])| <= |EncodeAll(rs)|
  {
    if n > 0 {
      assert rs[..n][1..] == rs[1..][..n - 1];
      PrefixIsNoLonger(rs[1..], n - 1);
    }
  }

  // ---------- What a parsed file holds, whatever its bytes are ----------

  /** The file is the records, encoded, and a tail that holds no whole record. */
  ghost predicate IsContent(rs: seq<Record>, bytes: seq<byte>) {
    && (forall r :: r in rs ==> Encodable(r))
    && EncodeAll(rs) <= bytes && ParseOne(bytes[|EncodeAll(rs)|..]).None?
  }

  lemma {:induction false} ParsedOneIsEncoded(bytes: seq<byte>)
    requires ParseOne(bytes).Some?
    ensures var (r, rest) := ParseOne(bytes).value; Encodable(r) && bytes == Encode(r) + rest
  {
    hide ToLittleEndian, FromLittleEndian, Limit;
    var (r, rest) := ParseOne(bytes).value;
    LittleEndianIsUnique(bytes[..8]);
    LittleEndianIsUnique(bytes[9..13]);
    assert bytes == bytes[..8] + [bytes[8]] + bytes[9..13] + bytes[HEADER..HEADER + |r.line|] + rest;
  }

  lemma {:induction false} ParseIsContent(bytes: seq<byte>)
    ensures IsContent(Parse(bytes), bytes)
    decreases |bytes|
  {
    hide ParseOne, Encode, Encodable;
    match ParseOne(bytes)
    case None =>
    case Some((r, rest)) =>
      ParsedOneIsEncoded(bytes);
      ParseOneIsShorter(bytes);
      ParseIsContent(rest);
      var all := EncodeAll(Parse(bytes));
      assert all == Encode(r) + EncodeAll(Parse(rest));
      assert bytes[|all|..] == rest[|EncodeAll(Parse(rest))|..];
  }

  lemma {:induction false} ParseOneIsShorter(bytes: seq<byte>)
    requires ParseOne(bytes).Some?
    ensures |ParseOne(bytes).value.1| < |bytes|
  {
  }

  /** There is only one such list of records: the parsed one. */
  lemma {:induction false} ContentIsParsed(rs: seq<Record>, bytes: seq<byte>)
    requires IsContent(rs, bytes)
    ensures rs == Parse(bytes)
  {
    hide ParseOne, Encode, Encodable;
    if rs != [] {
      var first, tail := rs[0], rs[1..];
      var n := |Encode(first)|;
      assert EncodeAll(rs) == Encode(first) + EncodeAll(tail);
      assert bytes[..n] == Encode(first) by {
        assert EncodeAll(rs)[..n] == Encode(first) && bytes[..|EncodeAll(rs)|] == EncodeAll(rs);
      }
      assert bytes == Encode(first) + bytes[n..];
      ParseOneUndoesEncode(first, bytes[n..]);
      assert EncodeAll(tail) == EncodeAll(rs)[n..] && EncodeAll(tail) <= bytes[n..];
      assert bytes[n..][|EncodeAll(tail)|..] == bytes[|EncodeAll(rs)|..];
      ContentIsParsed(tail, bytes[n..]);
      assert rs == [first] + tail;
    }
  }

  datatype SpillFile = Missing | Unreadable(reason: string) | Present(bytes: seq<byte>)

  /**
   A missing file reads as an empty log, and other failures to open it are reported. The log read
   from any other file is all the whole records at its start, and of a log that was cut off
   anywhere, the records that lie wholly before the cut.
   */
  method ReadSpillFile(file: SpillFile) returns (r: Result<seq<Record>, string>)
    ensures r.Ok? <==> !file.Unreadable?
    ensures file.Missing? ==> r.value == []
    ensures file.Unreadable? ==> r.error == file.reason
    ensures file.Present? ==> forall rs :: IsContent(rs, file.bytes) <==> rs == r.value
    ensures forall rs: seq<Record>, cut: nat :: (forall x :: x in rs ==> Encodable(x)) && cut <= |EncodeAll(rs)| ==>
              file == Present(EncodeAll(rs)[..cut]) ==> r == Ok(rs[..WholeRecords(rs, cut)])
  {
    hide Parse, IsContent, EncodeAll, Encodable;
    match file
    case Missing => return Ok([]);
    case Unreadable(reason) => return Err(reason);
    case Present(bytes) =>
      var out := ParseAll(bytes);
      ParseIsContent(bytes);
      forall rs | IsContent(rs, bytes) ensures rs == out {
        ContentIsParsed(rs, bytes);
      }
      forall rs: seq<Record>, cut: nat |
        (forall x :: x in rs ==> Encodable(x)) && cut <= |EncodeAll(rs)| && bytes == EncodeAll(rs)[..cut]
        ensures out == rs[..WholeRecords(rs, cut)]
      {
        ParseOfCutFile(rs, cut);
      }
      return Ok(out);
  }

  // ---------- Lines ----------

  function Concat(parts: seq<seq<byte>>): seq<byte> {
    if parts == [] then [] else parts[0] + Concat(parts[1..])
  }

  /** The raw lines are the stream, cut after each newline. */
  lemma {:induction false} RawLinesAreTheStream(input: seq<byte>)
    ensures Concat(RawLines(input)) == input
    decreases |input|
  {
    if input != [] {
      var n := LineLength(input);
      RawLinesAreTheStream(input[n..]);
      assert input == input[..n] + input[n..];
    }
  }

  lemma {:induction false} RawLinesAreLines(input: seq<byte>, i: nat)
    requires i < |RawLines(input)|
    ensures var raw := RawLines(input)[i];
            && raw != [] && (forall j :: 0 <= j < |raw| - 1 ==> raw[j] != LF)
            && (i < |RawLines(input)| - 1 ==> raw[|raw| - 1] == LF)
    decreases |input|
  {
    hide LineLength;
    var n := LineLength(input);
    if i > 0 {
      RawLinesAreLines(input[n..], i - 1);
    } else if n == |input| {
      assert RawLines(input[n..]) == [];
    }
  }

  lemma {:induction false} RecordsAreLines(input: seq<byte>, clock: nat -> nat, k: nat, i: nat)
    ensures |RecordsOf(input, clock, k)| == |RawLines(input)|
    ensures i < |RawLines(input)| ==> RecordsOf(input, clock, k)[i] == RecordOf(RawLines(input)[i], clock(k + i))
    decreases |input|
  {
    hide RecordOf, LineLength;
    if input != [] {
      var n := LineLength(input);
      RecordsAreLines(input[n..], clock, k + 1, if i > 0 then i - 1 else 0);
      assert RawLines(input) == [input[..n]] + RawLines(input[n..]);
      assert RecordsOf(input, clock, k) == [RecordOf(input[..n], clock(k))] + RecordsOf(input[n..], clock, k + 1);
    }
  }

  /** What the record format promises: the newline and one carriage return before it are removed. */
  function Documented(raw: seq<byte>): seq<byte> {
    if raw != [] && raw[|raw| - 1] == LF then WithoutLast(raw[..|raw| - 1], CR) else raw
  }

  /**
   The loop keeps that promise except on a last line that the stream ends without terminating: there
   it also removes a carriage return that no newline follows.
   */
  lemma {:induction false} StrippingIsDocumentedExactlyIf(raw: seq<byte>)
    ensures Stripped(raw) == Documented(raw) <==> !(raw != [] && raw[|raw| - 1] == CR)
  {
    if raw != [] && raw[|raw| - 1] == CR {
      assert |Stripped(raw)| == |raw| - 1;
    }
  }

  /**
   The tag is zero, the time is the given one or the greatest there is, and the bytes are those of the
   line without its end, as documented and less a carriage return at the very end, or their first
   2^32 - 1.
   */
  ghost predicate Describes(r: Record, raw: seq<byte>, elapsedNs: nat) {
    raw != [] &&
    var line := if raw[|raw| - 1] == CR then raw[..|raw| - 1] else Documented(raw);
    && r.streamTag == 0
    && r.elapsedNs == (if elapsedNs < 0x1_0000_0000_0000_0000 then elapsedNs else 0xFFFF_FFFF_FFFF_FFFF)
    && r.line == if |line| < 0x1_0000_0000 then line else line[..0xFFFF_FFFF]
  }

  lemma {:induction false} RecordDescribesLine(raw: seq<byte>, elapsedNs: nat)
    requires raw != []
    ensures Describes(RecordOf(raw, elapsedNs), raw, elapsedNs)
  {
    hide Limit;
    Limits();
    if raw[|raw| - 1] != CR {
      StrippingIsDocumentedExactlyIf(raw);
    }
  }

  /** End to end: the parsed log has one record per raw line, in order, that describes it. */
  lemma {:induction false} LogHoldsTheLines(input: seq<byte>, clock: nat -> nat)
    ensures var log := Parse(EncodeAll(RecordsOf(input, clock, 0)));
            && |log| == |RawLines(input)|
            && forall i: nat :: i < |log| ==> Describes(log[i], RawLines(input)[i], clock(i))
  {
    hide Parse, RecordOf, RecordsOf, RawLines, Describes;
    ParseUndoesEncode(RecordsOf(input, clock, 0));
    RecordsAreLines(input, clock, 0, 0);
    forall i: nat | i < |RawLines(input)|
      ensures Describes(RecordsOf(input, clock, 0)[i], RawLines(input)[i], clock(i))
    {
      RecordsAreLines(input, clock, 0, i);
      RawLinesAreLines(input, i);
      RecordDescribesLine(RawLines(input)[i], clock(i));
    }
  }
}
