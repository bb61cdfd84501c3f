/** The run-length decoder of waveform tables: getTablePtr and getTableAt (libs/swtcon/Waveforms.cpp:215-307). */
module WaveformDecoder {
  import opened Options

  type Byte = bv8

  // ----- The format, as a recursive specification

  /** The four 2-bit phase codes packed in a byte, lowest bits first. */
  function Codes(b: Byte): seq<Byte> { [b & 3, (b >> 2) & 3, (b >> 4) & 3, b >> 6] }

  function Repeat(b: Byte, n: nat): (r: seq<Byte>)
    ensures |r| == 4 * n
  {
    if n == 0 then [] else Repeat(b, n - 1) + Codes(b)
  }

  /** Elements read in run mode carry a count byte that stands for one repetition more; literal ones do not. */
  function RunLength(count: Byte): nat { count as int + 1 }

  /** The stop byte `stop` is met, in element position, when decoding `s` from `pos`. */
  predicate Terminated(s: seq<Byte>, stop: Byte, escape: Byte, pos: nat, runs: bool)
    decreases |s| - pos
  {
    pos < |s| &&
    (s[pos] == stop ||
     if s[pos] == escape then Terminated(s, stop, escape, pos + 1, !runs)
     else if runs then pos + 1 < |s| && Terminated(s, stop, escape, pos + 2, true)
     else Terminated(s, stop, escape, pos + 1, false))
  }

  /** Meaning of the stream from `pos`: the escape byte switches between run mode and literal mode. */
  function Expand(s: seq<Byte>, stop: Byte, escape: Byte, pos: nat, runs: bool): seq<Byte>
    requires Terminated(s, stop, escape, pos, runs)
    decreases |s| - pos
  {
    if s[pos] == stop then []
    else if s[pos] == escape then Expand(s, stop, escape, pos + 1, !runs)
    else if runs then Repeat(s[pos], RunLength(s[pos + 1])) + Expand(s, stop, escape, pos + 2, true)
    else Codes(s[pos]) + Expand(s, stop, escape, pos + 1, false)
  }

  // ----- The encoder that the format implies, and its round trip

  /** An element with the number of its repetitions and, in a run, the byte that stands for this number. */
  datatype Segment = Run(value: Byte, times: nat, count: Byte) | Literal(value: Byte) {
    function Times(): nat { if Run? then times else 1 }
  }

  /** Every element's four codes, as often as it is repeated. */
  ghost function Meaning(segments: seq<Segment>): seq<Byte> {
    if segments == [] then []
    else seq(4 * segments[0].Times(), i requires 0 <= i => Codes(segments[0].value)[i % 4]) + Meaning(segments[1..])
  }

  lemma {:induction false} RepeatIs(b: Byte, n: nat)
    ensures Repeat(b, n) == seq(4 * n, i requires 0 <= i => Codes(b)[i % 4])
  {
    if n > 0 {
      RepeatIs(b, n - 1);
      var m := 4 * (n - 1);
      assert forall i | m <= i < m + 4 :: i % 4 == i - m;
    }
  }

  /** Emits an escape byte exactly where the kind of segment changes, and the stop byte at the end. */
  ghost function Encode(segments: seq<Segment>, stop: Byte, escape: Byte, runs: bool): (s: seq<Byte>)
    ensures |s| > 0
    decreases |segments|, segments != [] && segments[0].Run? != runs
  {
    if segments == [] then [stop]
    else if segments[0].Run? != runs then [escape] + Encode(segments, stop, escape, !runs)
    else if runs then [segments[0].value, segments[0].count] + Encode(segments[1..], stop, escape, runs)
    else [segments[0].value] + Encode(segments[1..], stop, escape, runs)
  }

  ghost predicate Encodable(segments: seq<Segment>, stop: Byte, escape: Byte) {
    && stop != escape && (forall g | g in segments :: g.value != stop && g.value != escape)
    && forall g | g in segments && g.Run? :: g.times == 1 + g.count as int  // from 1 to 256
  }

  /** Decoding what the encoder wrote, at any offset in a larger file, gives the meaning of the segments. */
  lemma {:induction false} RoundTrip(before: seq<Byte>, segments: seq<Segment>, after: seq<Byte>,
                                     stop: Byte, escape: Byte, runs: bool)
    requires Encodable(segments, stop, escape)
    ensures var s := before + Encode(segments, stop, escape, runs) + after;
            && Terminated(s, stop, escape, |before|, runs)
            && Expand(s, stop, escape, |before|, runs) == Meaning(segments)
    decreases |segments|, segments != [] && segments[0].Run? != runs
  {
    hide Repeat, Codes, Meaning, RunLength, Encodable;
    var s := before + Encode(segments, stop, escape, runs) + after;
    if segments == [] {
      NoMeaning(segments);
      assert s[|before|] == stop;
    } else if segments[0].Run? != runs {
      EncodableParts(segments, stop, escape);
      assert before + [escape] + Encode(segments, stop, escape, !runs) + after == s;
      RoundTrip(before + [escape], segments, after, stop, escape, !runs);
    } else {
      var head := if runs then [segments[0].value, segments[0].count] else [segments[0].value];
      assert before + head + Encode(segments[1..], stop, escape, runs) + after == s;
      assert s[|before|] == segments[0].value;
      assert runs ==> s[|before| + 1] == segments[0].count;
      EncodableParts(segments, stop, escape);
      HeadMeaning(segments);
      RoundTrip(before + head, segments[1..], after, stop, escape, runs);
    }
  }

  lemma NoMeaning(segments: seq<Segment>)
    requires segments == []
    ensures Meaning(segments) == []
  {
  }

  lemma HeadMeaning(segments: seq<Segment>)
    requires segments != []
    ensures Meaning(segments) == Repeat(segments[0].value, segments[0].Times()) + Meaning(segments[1..])
    ensures segments[0].Literal? ==> Repeat(segments[0].value, 1) == Codes(segments[0].value)
  {
    RepeatIs(segments[0].value, segments[0].Times());
    SingleRun(segments[0].value);
  }

  lemma EncodableParts(segments: seq<Segment>, stop: Byte, escape: Byte)
    requires Encodable(segments, stop, escape) && segments != []
    ensures stop != escape && segments[0].value != stop && segments[0].value != escape
    ensures Encodable(segments[1..], stop, escape)
    ensures segments[0].Run? ==> RunLength(segments[0].count) == segments[0].times
  {
    if segments[0].Run? { LengthIs(segments[0].count, segments[0].times); }
  }

  lemma LengthIs(count: Byte, times: nat)
    requires times == 1 + count as int
    ensures RunLength(count) == times
  {
  }

  /** The smallest run: one element, count byte 0. */
  lemma OneRun()
    ensures Terminated([0x1b, 0x00, 0xff], 0xff, 0xfe, 0, true)
    ensures Expand([0x1b, 0x00, 0xff], 0xff, 0xfe, 0, true) == [3, 2, 1, 0]
  {
    var s: seq<Byte> := [0x1b, 0x00, 0xff];
    assert Expand(s, 0xff, 0xfe, 2, true) == [];
    assert RunLength(0) == 1;
    SingleRun(0x1b);
    assert Codes(0x1b) == [3, 2, 1, 0];
  }

  predicate AreCodes(s: seq<Byte>) { forall c | c in s :: c <= 3 }

  lemma AreCodesConcat(a: seq<Byte>, b: seq<Byte>)
    ensures AreCodes(a + b) <==> AreCodes(a) && AreCodes(b)
  {
    assert forall c :: c in a + b <==> c in a || c in b;
  }

  /** The decoder never produces anything but 2-bit codes, in whole bytes' worth. */
  lemma {:induction false} ExpandsToCodes(s: seq<Byte>, stop: Byte, escape: Byte, pos: nat, runs: bool)
    requires Terminated(s, stop, escape, pos, runs)
    ensures |Expand(s, stop, escape, pos, runs)| % 4 == 0 && AreCodes(Expand(s, stop, escape, pos, runs))
    decreases |s| - pos
  {
    if s[pos] == stop {
    } else if s[pos] == escape {
      ExpandsToCodes(s, stop, escape, pos + 1, !runs);
    } else {
      var (n, next) := if runs then (RunLength(s[pos + 1]), pos + 2) else (1, pos + 1);
      RepeatsCodes(s[pos], n);
      SingleRun(s[pos]);
      ExpandsToCodes(s, stop, escape, next, runs);
      AreCodesConcat(Repeat(s[pos], n), Expand(s, stop, escape, next, runs));
      hide Repeat, Codes, AreCodes;
    }
  }

  lemma CodesAreSmall(b: Byte)
    ensures AreCodes(Codes(b))
  {
    assert b & 3 <= 3 && (b >> 2) & 3 <= 3 && (b >> 4) & 3 <= 3 && b >> 6 <= 3;
  }

  lemma {:induction false} RepeatsCodes(b: Byte, n: nat)
    ensures AreCodes(Repeat(b, n))
  {
    CodesAreSmall(b);
    if n > 0 {
      RepeatsCodes(b, n - 1);
      AreCodesConcat(Repeat(b, n - 1), Codes(b));
    }
    hide Codes, AreCodes;
  }

  /** A byte is recovered from its four codes. */
  lemma CodesLossless(b: Byte)
    ensures var c := Codes(b); b == c[0] | (c[1] << 2) | (c[2] << 4) | (c[3] << 6)
  {
    assert b == (b & 3) | (((b >> 2) & 3) << 2) | (((b >> 4) & 3) << 4) | ((b >> 6) << 6);
  }

  // ----- Locating a table in the file

  /** 24-bit little-endian number at `at`. */
  function Number24(data: seq<Byte>, at: nat): nat
    requires at + 3 <= |data|
  {
    data[at] as int + 0x100 * data[at + 1] as int + 0x1_0000 * data[at + 2] as int
  }

  /** The header gives the table's maxima, stop byte and escape byte. */
  predicate HasHeader(data: seq<Byte>) { |data| > 0x30 }

  /** Mode and temperature are not above the file's maxima. */
  predicate InMaxima(data: seq<Byte>, mode: nat, temp: nat)
    requires HasHeader(data)
  {
    mode <= data[0x25] as int && temp <= data[0x26] as int
  }

  /** Every offset on the way to the table of `mode` and `temp` lies inside the file. */
  predicate OffsetsInFile(data: seq<Byte>, mode: nat, temp: nat)
    requires HasHeader(data)
  {
    && var modes := Number24(data, 0x20) + mode * 4;
    && modes + 4 <= |data|
    && var temps := Number24(data, modes) + temp * 4;
    && temps + 4 <= |data|
    && Number24(data, temps) < |data|
  }

  /** Offset of a table, or None when the mode or the temperature is above the file's maximum. */
  function GetTablePtr(data: seq<Byte>, mode: nat, temp: nat): Option<nat>
    requires HasHeader(data) && (InMaxima(data, mode, temp) ==> OffsetsInFile(data, mode, temp))
  {
    if mode > data[0x25] as int then None
    else if temp > data[0x26] as int then None
    else
      var modes := Number24(data, 0x20) + mode * 4;
      Some(Number24(data, Number24(data, modes) + temp * 4))
  }

  /** `n` as a 24-bit little-endian number at `at`. */
  ghost predicate Stored24(data: seq<Byte>, at: nat, n: nat) {
    && n < 0x100_0000 && at + 4 <= |data|
    && data[at] as int == n % 0x100 && data[at + 1] as int == n / 0x100 % 0x100 && data[at + 2] as int == n / 0x1_0000
  }

  /**
   A file whose header points to a list of modes, whose entry for the mode points to a list of temperatures, whose entry
   for the temperature points to the table: the table is found.
   */
  lemma TableFound(data: seq<Byte>, mode: nat, temp: nat, modes: nat, temps: nat, table: nat)
    requires |data| > 0x30 && table < |data|
    requires mode <= data[0x25] as int && temp <= data[0x26] as int
    requires Stored24(data, 0x20, modes) && Stored24(data, modes + 4 * mode, temps) && Stored24(data, temps + 4 * temp, table)
    ensures HasHeader(data) && InMaxima(data, mode, temp) && OffsetsInFile(data, mode, temp)
    ensures GetTablePtr(data, mode, temp) == Some(table)
  {
    Number24Is(data, 0x20, modes);
    Number24Is(data, modes + 4 * mode, temps);
    Number24Is(data, temps + 4 * temp, table);
    InFile(data, modes + 4 * mode, temps);
    InFile(data, temps + 4 * temp, table);
    hide Stored24, Number24, OffsetsInFile, GetTablePtr;
    FoundFrom(data, mode, temp, modes, temps, table);
  }

  lemma FoundFrom(data: seq<Byte>, mode: nat, temp: nat, modes: nat, temps: nat, table: nat)
    requires HasHeader(data) && InMaxima(data, mode, temp) && table < |data|
    requires Number24(data, 0x20) == modes && modes + 4 * mode + 4 <= |data|
    requires Number24(data, modes + 4 * mode) == temps && temps + 4 * temp + 4 <= |data|
    requires Number24(data, temps + 4 * temp) == table
    ensures OffsetsInFile(data, mode, temp) && GetTablePtr(data, mode, temp) == Some(table)
  {
    hide Number24;
  }

  lemma InFile(data: seq<Byte>, at: nat, n: nat)
    requires Stored24(data, at, n)
    ensures at + 4 <= |data|
  {
  }

  lemma Number24Is(data: seq<Byte>, at: nat, n: nat)
    requires Stored24(data, at, n)
    ensures Number24(data, at) == n
  {
    Digits24(n);
  }

  lemma Digits24(n: nat)
    ensures n == n % 0x100 + 0x100 * (n / 0x100 % 0x100) + 0x1_0000 * (n / 0x1_0000)
  {
    assert n / 0x1_0000 == n / 0x100 / 0x100;
  }

  /** Above either maximum there is no table. */
  lemma NoTable(data: seq<Byte>, mode: nat, temp: nat)
    requires |data| > 0x30 && (mode > data[0x25] as int || temp > data[0x26] as int)
    ensures TableReadable(data, mode, temp) && GetTablePtr(data, mode, temp) == None
  {
  }

  /** Unless the table is out of the maxima, its offset lies inside the file and a terminated stream starts there. */
  predicate TableReadable(data: seq<Byte>, mode: nat, temp: nat) {
    && HasHeader(data) && (InMaxima(data, mode, temp) ==> OffsetsInFile(data, mode, temp))
    && var p := GetTablePtr(data, mode, temp);
    p.Some? ==> Terminated(data, data[0x28], data[0x29], p.value, true)
  }

  /** What a table decodes to; empty when it does not exist. */
  function Table(data: seq<Byte>, mode: nat, temp: nat): seq<Byte>
    requires TableReadable(data, mode, temp)
  {
    var p := GetTablePtr(data, mode, temp);
    if p.None? then [] else Expand(data, data[0x28], data[0x29], p.value, true)
  }

  /** A file with an encoded table at the offset it gives, and its stop and escape bytes in the header. */
  lemma TableRoundTrip(before: seq<Byte>, segments: seq<Segment>, after: seq<Byte>, stop: Byte, escape: Byte,
                       mode: nat, temp: nat, modes: nat, temps: nat)
    requires Encodable(segments, stop, escape)
    requires var data := before + Encode(segments, stop, escape, true) + after;
             && |data| > 0x30 && mode <= data[0x25] as int && temp <= data[0x26] as int
             && data[0x28] == stop && data[0x29] == escape
             && Stored24(data, 0x20, modes) && Stored24(data, modes + 4 * mode, temps)
             && Stored24(data, temps + 4 * temp, |before|)
    ensures var data := before + Encode(segments, stop, escape, true) + after;
            TableReadable(data, mode, temp) && Table(data, mode, temp) == Meaning(segments)
  {
    hide Encode, Meaning, Encodable, Stored24, GetTablePtr, OffsetsInFile;
    var data := before + Encode(segments, stop, escape, true) + after;
    TableFound(data, mode, temp, modes, temps, |before|);
    RoundTrip(before, segments, after, stop, escape, true);
  }

  // ----- The decoder

  lemma ExtractCodes(elem: bv32)
    requires elem < 0x100
    ensures [(elem as bv8) & 3, ((elem << 0x1c) >> 0x1e) as bv8, ((elem << 0x1a) >> 0x1e) as bv8, (elem >> 6) as bv8]
         == Codes(elem as bv8)
  {
  }

  lemma Advance(table: seq<Byte>, at: nat, run: seq<Byte>, rest: seq<Byte>)
    requires at <= |table| && table[at..] == run + rest
    ensures at + |run| <= |table|
    ensures table[at + |run|..] == rest
    ensures table[..at + |run|] == table[..at] + run
  {
    assert |table| == at + |run| + |rest|;
    assert table == table[..at] + run + rest;
  }

  /** With `out` null only the size is computed; otherwise the codes are written to the start of `out`. */
  method GetTableAt(data: seq<Byte>, mode: nat, temp: nat, out: array?<Byte>) returns (size: int)
    requires TableReadable(data, mode, temp)
    requires out != null ==> |Table(data, mode, temp)| <= out.Length
    modifies if out == null then {} else {out}
    ensures size == if GetTablePtr(data, mode, temp).None? then -1 else |Table(data, mode, temp)|
    ensures out != null && size >= 0 ==> out[..size] == Table(data, mode, temp) && out[size..] == old(out[..])[size..]
  {
    var tablePtr := GetTablePtr(data, mode, temp);
    if tablePtr.None? { return -1; }
    size := DecodeAt(data, data[0x28], data[0x29], tablePtr.value, out);
  }

  method DecodeAt(data: seq<Byte>, stop: Byte, escape: Byte, tablePtr: nat, out: array?<Byte>) returns (curSize: nat)
    requires Terminated(data, stop, escape, tablePtr, true)
    requires out != null ==> |Expand(data, stop, escape, tablePtr, true)| <= out.Length
    modifies if out == null then {} else {out}
    ensures var table := Expand(data, stop, escape, tablePtr, true);
            && curSize == |table|
            && (out != null ==> out[..curSize] == table && out[curSize..] == old(out[..])[curSize..])
  {
    hide Repeat, Codes;
    ghost var table := Expand(data, stop, escape, tablePtr, true);
    ghost var before := if out == null then [] else out[..];
    var notAtRowEnd := true;
    curSize := 0;
    var idx := tablePtr;
    var elem := data[idx];
    while elem != stop
      invariant Terminated(data, stop, escape, idx, notAtRowEnd) && elem == data[idx]
      invariant curSize <= |table| && table[curSize..] == Expand(data, stop, escape, idx, notAtRowEnd)
      invariant out != null ==> out[..curSize] == table[..curSize] && out[curSize..] == before[curSize..]
      decreases |data| - idx
    {
      var nextIdx := idx + 1;
      if elem == escape {
        notAtRowEnd := !notAtRowEnd;
      } else {
        var length := 1;
        if notAtRowEnd {
          length := RunLength(data[nextIdx]);
          nextIdx := idx + 2;
        }
        SingleRun(elem);
        Advance(table, curSize, Repeat(elem, length), Expand(data, stop, escape, nextIdx, notAtRowEnd));
        curSize := EmitRun(elem, length, out, curSize);
      }
      elem := data[nextIdx];
      idx := nextIdx;
    }
  }

  lemma RepeatNext(b: Byte, n: nat)
    ensures Repeat(b, 0) == [] && Repeat(b, n + 1) == Repeat(b, n) + Codes(b)
  {
  }

  lemma SingleRun(b: Byte)
    ensures Repeat(b, 1) == Codes(b)
  {
    assert Repeat(b, 0) == [];
  }

  /** One run. The sizing pass advances two repetitions at a time and leaves early after an odd one. */
  method EmitRun(elem: Byte, length: nat, out: array?<Byte>, base: nat) returns (curSize: nat)
    requires length >= 1
    requires out != null ==> base + 4 * length <= out.Length
    modifies if out == null then {} else {out}
    ensures curSize == base + 4 * length
    ensures out != null ==> out[..curSize] == old(out[..base]) + Repeat(elem, length)
    ensures out != null ==> out[curSize..] == old(out[..])[curSize..]
  {
    RepeatNext(elem, 0);
    hide Repeat, Codes;
    ghost var before := if out == null then [] else out[..];
    var idx2, lastSize := 0, base;
    curSize := base;
    while idx2 < length
      invariant idx2 <= length && lastSize == curSize == base + 4 * idx2
      invariant out != null ==> out[..curSize] == before[..base] + Repeat(elem, idx2)
      invariant out != null ==> forall i | curSize <= i < out.Length :: out[i] == before[i]
    {
      var nextIdx2 := idx2 + 1;
      curSize := lastSize + 4;
      if out == null {
        idx2 := idx2 + 2;
        lastSize := lastSize + 8;
        if nextIdx2 >= length { break; }
      } else {
        EmitOne(elem, out, lastSize, before[..base], idx2);
        lastSize := curSize;
        idx2 := nextIdx2;
      }
      curSize := lastSize;
    }
  }

  /** One more repetition. */
  method EmitOne(elem: Byte, out: array<Byte>, at: nat, ghost before: seq<Byte>, ghost n: nat)
    requires at + 4 <= out.Length && out[..at] == before + Repeat(elem, n)
    modifies out
    ensures out[..at + 4] == before + Repeat(elem, n + 1)
    ensures forall i | at + 4 <= i < out.Length :: out[i] == old(out[i])
  {
    hide Repeat, Codes;
    RepeatNext(elem, n);
    WriteCodes(elem as bv32, out, at);
    assert (before + Repeat(elem, n)) + Codes(elem) == before + Repeat(elem, n + 1);
  }

  /** The four stores, with the shifts of a 32-bit register. */
  method WriteCodes(elem: bv32, out: array<Byte>, at: nat)
    requires elem < 0x100 && at + 4 <= out.Length
    modifies out
    ensures out[..at + 4] == old(out[..at]) + Codes(elem as Byte)
    ensures forall i | at + 4 <= i < out.Length :: out[i] == old(out[i])
  {
    ExtractCodes(elem);
    out[at] := (elem as Byte) & 3;
    out[at + 1] := ((elem << 0x1c) >> 0x1e) as Byte;
    out[at + 2] := ((elem << 0x1a) >> 0x1e) as Byte;
    out[at + 3] := (elem >> 6) as Byte;
  }

  /** The callers' use: size the buffer with one pass, fill it with another. The passes agree, and the buffer fits exactly. */
  method ReadTable(data: seq<Byte>, mode: nat, temp: nat) returns (tbl: array?<Byte>)
    requires TableReadable(data, mode, temp)
    ensures tbl == null <==> Table(data, mode, temp) == []
    ensures tbl != null ==> fresh(tbl) && tbl[..] == Table(data, mode, temp)
  {
    var size := GetTableAt(data, mode, temp, null);
    if size < 1 { return null; }
    tbl := new Byte[size];
    var size2 := GetTableAt(data, mode, temp, tbl);
    if size != size2 { return null; }
  }
}
