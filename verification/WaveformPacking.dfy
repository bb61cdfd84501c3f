/**
 Packing of decoded waveform tables: readInitTable and readWaveformTable (libs/swtcon/Waveforms.cpp:309-461).

 A decoded table is a sequence of phases, each a square matrix with one 2-bit code for every grey transition. The
 packed table is the other way round: for each of the 16 x 16 transitions its codes over all phases, eight to a word.
 */
module WaveformPacking {
  import opened Options
  import opened WaveformDecoder

  // ----- 2-bit lanes of a word

  /** Shift amount of lane `k` of eight: twice its number. */
  function Lane(k: nat): bv5 {
    match k case 0 => 0 case 1 => 2 case 2 => 4 case 3 => 6 case 4 => 8 case 5 => 10 case 6 => 12 case _ => 14
  }

  /** The `k`-th 2-bit code of a register, lowest bits first. */
  function Bits(v: bv32, k: nat): bv32 { (v >> Lane(k)) & 3 }

  /** The `k`-th code of a stored word. */
  function Code(word: bv16, k: nat): bv32 { Bits(word as bv32, k) }

  /** The accumulator after adding a code in lane `k`. */
  function Put(acc: bv32, c: bv32, k: nat): bv32 { (acc | (c << Lane(k))) & 0xffff }

  lemma LanesEven(j: nat, k: nat)
    ensures Lane(j) <= 14 && Lane(j) & 1 == 0
    ensures j < 8 && k < 8 ==> (Lane(j) == Lane(k) <==> j == k)
  {
  }

  lemma PutBits(acc: bv32, c: bv32, k: bv5, j: bv5)
    ensures k <= 14 && j <= 14 && k & 1 == 0 && j & 1 == 0 && c <= 3 && acc < 0x1_0000 && (acc >> k) & 3 == 0 ==>
              (((acc | (c << k)) & 0xffff) >> j) & 3 == if j == k then c else (acc >> j) & 3
  {
  }

  /** Or-ing a code into an empty lane sets that lane and keeps the others. */
  lemma PutCode(acc: bv32, c: bv32, k: nat, j: nat)
    requires k < 8 && j < 8 && c <= 3 && acc < 0x1_0000 && Bits(acc, k) == 0
    ensures Bits(Put(acc, c, k), j) == if j == k then c else Bits(acc, j)
  {
    LanesEven(j, k);
    LanesEven(k, j);
    PutBits(acc, c, Lane(k), Lane(j));
  }

  lemma PutSmall(acc: bv32, c: bv32, k: nat)
    ensures Put(acc, c, k) < 0x1_0000
  {
    assert (acc | (c << Lane(k))) & 0xffff < 0x1_0000;
  }

  /** Storing a register of at most 16 bits as a word keeps its codes. */
  lemma StoreWord(v: bv32, k: nat)
    requires v < 0x1_0000 && k < 8
    ensures Code(v as bv16, k) == Bits(v, k)
  {
    hide Bits;
    assert (v as bv16) as bv32 == v;
  }

  /** A word is determined by its eight codes. */
  lemma WordDetermined(v: bv16, w: bv16)
    requires forall k: nat | k < 8 :: Code(v, k) == Code(w, k)
    ensures v == w
  {
    assert Code(v, 0) == Code(w, 0) && Code(v, 1) == Code(w, 1) && Code(v, 2) == Code(w, 2);
    assert Code(v, 3) == Code(w, 3) && Code(v, 4) == Code(w, 4) && Code(v, 5) == Code(w, 5);
    assert Code(v, 6) == Code(w, 6) && Code(v, 7) == Code(w, 7);
  }

  /** The codes of a word in order, lowest bits first. */
  lemma WordIs(v: bv16)
    ensures v as bv32 == Code(v, 0) | (Code(v, 1) << 2) | (Code(v, 2) << 4) | (Code(v, 3) << 6)
                         | (Code(v, 4) << 8) | (Code(v, 5) << 10) | (Code(v, 6) << 12) | (Code(v, 7) << 14)
  {
    CodesOfWord(v as bv32);
    assert v as bv32 < 0x1_0000;
  }

  lemma CodesOfWord(v: bv32)
    requires v < 0x1_0000
    ensures v == (v & 3) | (((v >> 2) & 3) << 2) | (((v >> 4) & 3) << 4) | (((v >> 6) & 3) << 6)
                 | (((v >> 8) & 3) << 8) | (((v >> 10) & 3) << 10) | (((v >> 12) & 3) << 12) | (((v >> 14) & 3) << 14)
  {
  }

  lemma ZeroWord(k: nat)
    requires k < 8
    ensures Code(0, k) == 0 && Bits(0, k) == 0
  {
  }

  // ----- The phases of one transition

  /**
   Index of the code of transition (`row`, `col`) in phase `k`: the source matrix is read transposed, and in the wide
   layout only every second row and column of a 32 x 32 matrix is used.
   */
  function Position(wide: bool, row: nat, col: nat, k: nat): nat {
    if wide then 2 * row + 0x40 * col + 0x400 * k else row + 0x10 * col + 0x100 * k
  }

  function ElementSize(wide: bool): nat { if wide then 0x400 else 0x100 }

  /** The codes of a transition in the first `n` phases. */
  function Phases(tbl: seq<Byte>, wide: bool, row: nat, col: nat, n: nat): (codes: seq<bv32>)
    requires row < 0x10 && col < 0x10 && (if wide then 0x400 * n else 0x100 * n) <= |tbl|
    ensures |codes| == n
  {
    if n == 0 then []
    else Phases(tbl, wide, row, col, n - 1) + [(tbl[Position(wide, row, col, n - 1)] & 3) as bv32]
  }

  function DropZeros(codes: seq<bv32>): seq<bv32> {
    if codes == [] then [] else if codes[0] == 0 then DropZeros(codes[1..]) else codes
  }

  /** The codes that are packed: all of them, or those after the leading no-op phases. */
  function Emitted(codes: seq<bv32>, skipInit: bool): seq<bv32> {
    if skipInit then DropZeros(codes) else codes
  }

  /** DropZeros removes a prefix of zeros and nothing else. */
  lemma {:induction false} DropZerosIsSuffix(codes: seq<bv32>)
    ensures var d := |codes| - |DropZeros(codes)|;
            && 0 <= d
            && DropZeros(codes) == codes[d..]
            && (forall k | 0 <= k < d :: codes[k] == 0)
            && (d < |codes| ==> codes[d] != 0)
  {
    if codes != [] && codes[0] == 0 { DropZerosIsSuffix(codes[1..]); }
  }

  lemma {:induction false} DropZerosSnoc(codes: seq<bv32>, c: bv32)
    ensures DropZeros(codes + [c]) == if c == 0 && DropZeros(codes) == [] then [] else DropZeros(codes) + [c]
  {
    if codes == [] {
      assert [c][1..] == [];
    } else {
      assert (codes + [c])[1..] == codes[1..] + [c];
      if codes[0] == 0 { DropZerosSnoc(codes[1..], c); }
    }
  }

  // ----- Packed tables

  function CodeAt(codes: seq<bv32>, k: nat): bv32 { if k < |codes| then codes[k] else 0 }

  /** The `w`-th word of transition `slot`. */
  function WordOf(words: seq<bv16>, slot: nat, w: nat): bv16
    requires slot < 0x100 && 0x100 * w + slot < |words|
  {
    words[0x100 * w + slot]
  }

  ghost predicate WordHolds(word: bv16, codes: seq<bv32>, w: nat) {
    forall j: nat | j < 8 :: Code(word, j) == CodeAt(codes, 8 * w + j)
  }

  /** The words of transition `slot` hold `codes`, eight to a word, followed by zeros. */
  ghost predicate Holds(words: seq<bv16>, blocks: nat, slot: nat, codes: seq<bv32>) {
    && |words| == 0x100 * blocks && slot < 0x100
    && forall w: nat | w < blocks :: WordHolds(WordOf(words, slot, w), codes, w)
  }

  /** Unpacking: the codes of a transition are read back from its words. */
  lemma Unpack(words: seq<bv16>, blocks: nat, slot: nat, codes: seq<bv32>, k: nat)
    requires Holds(words, blocks, slot, codes) && k < 8 * blocks
    ensures Code(words[0x100 * (k / 8) + slot], k % 8) == CodeAt(codes, k)
  {
    assert WordHolds(WordOf(words, slot, k / 8), codes, k / 8);
    assert 8 * (k / 8) + k % 8 == k;
  }

  /** Flushing the accumulator after at most eight codes. */
  lemma Flush(words: seq<bv16>, blocks: nat, slot: nat, codes: seq<bv32>, done: nat, acc: bv32)
    requires done % 8 == 0 && done < |codes| <= done + 8 && |codes| <= 8 * blocks && acc < 0x1_0000
    requires Holds(words, blocks, slot, codes[..done])
    requires forall j: nat | j < 8 :: Bits(acc, j) == CodeAt(codes, done + j)
    ensures Holds(words[0x100 * (done / 8) + slot := acc as bv16], blocks, slot, codes)
  {
    hide Bits, Code;
    var word := acc as bv16;
    var after := words[0x100 * (done / 8) + slot := word];
    forall w: nat | w < blocks ensures WordHolds(WordOf(after, slot, w), codes, w) {
      if w == done / 8 {
        forall j: nat | j < 8 ensures Code(word, j) == CodeAt(codes, 8 * w + j) {
          StoreWord(acc, j);
        }
      } else {
        assert WordHolds(WordOf(words, slot, w), codes[..done], w);
      }
    }
  }

  /** State inside a word: the first `done` codes are stored, the rest are in the accumulator. */
  ghost predicate Pending(words: seq<bv16>, blocks: nat, slot: nat, codes: seq<bv32>, done: nat, acc: bv32) {
    && done <= |codes| && acc < 0x1_0000
    && Holds(words, blocks, slot, codes[..done])
    && forall j: nat | j < 8 :: Bits(acc, j) == CodeAt(codes, done + j)
  }

  lemma Accumulate(words: seq<bv16>, blocks: nat, slot: nat, codes: seq<bv32>, done: nat, acc: bv32, c: bv32)
    requires Pending(words, blocks, slot, codes, done, acc) && |codes| - done < 8 && c <= 3
    ensures Pending(words, blocks, slot, codes + [c], done, Put(acc, c, |codes| - done))
  {
    hide Bits, Put, Holds;
    var lane := |codes| - done;
    PutSmall(acc, c, lane);
    assert (codes + [c])[..done] == codes[..done];
    forall j: nat | j < 8 ensures Bits(Put(acc, c, lane), j) == CodeAt(codes + [c], done + j) {
      PutCode(acc, c, lane, j);
    }
  }

  lemma AllStored(words: seq<bv16>, blocks: nat, slot: nat, codes: seq<bv32>, acc: bv32)
    requires Pending(words, blocks, slot, codes, |codes|, acc)
    ensures Holds(words, blocks, slot, codes)
  {
    assert codes[..|codes|] == codes;
  }

  lemma Restart(words: seq<bv16>, blocks: nat, slot: nat, codes: seq<bv32>)
    requires Holds(words, blocks, slot, codes)
    ensures Pending(words, blocks, slot, codes, |codes|, 0)
  {
    assert codes[..|codes|] == codes;
    forall j: nat | j < 8 ensures Bits(0, j) == CodeAt(codes, |codes| + j) { ZeroWord(j); }
  }

  /** Storing the accumulator. */
  lemma Store(words: seq<bv16>, blocks: nat, slot: nat, codes: seq<bv32>, done: nat, acc: bv32)
    requires Pending(words, blocks, slot, codes, done, acc)
    requires done % 8 == 0 && done < |codes| <= done + 8 && |codes| <= 8 * blocks
    ensures 0x100 * (done / 8) + slot < |words|
    ensures Pending(words[0x100 * (done / 8) + slot := acc as bv16], blocks, slot, codes, |codes|, 0)
  {
    hide Bits;
    Flush(words, blocks, slot, codes, done, acc);
    Restart(words[0x100 * (done / 8) + slot := acc as bv16], blocks, slot, codes);
  }

  /** How many of `n` codes are stored: all after the last phase, full words before. */
  function Stored(n: nat, last: bool): nat { if last then n else n - n % 8 }

  /** No word of another transition changes. */
  ghost predicate OthersKept(before: seq<bv16>, after: seq<bv16>, slot: nat) {
    |after| == |before| && forall i | 0 <= i < |after| && i % 0x100 != slot :: after[i] == before[i]
  }

  lemma KeptOn(a: seq<bv16>, b: seq<bv16>, c: seq<bv16>, slot: nat)
    ensures OthersKept(a, a, slot)
    ensures OthersKept(a, b, slot) && OthersKept(b, c, slot) ==> OthersKept(a, c, slot)
  {
  }

  lemma OneWord(words: seq<bv16>, w: nat, slot: nat, word: bv16)
    requires slot < 0x100 && 0x100 * w + slot < |words|
    ensures OthersKept(words, words[0x100 * w + slot := word], slot)
  {
    assert (0x100 * w + slot) % 0x100 == slot;
  }

  /** One code of a transition: it enters the accumulator, which is stored after every eighth and after the last code. */
  method AddCode(table1: array<bv16>, ghost blocks: nat, slot: nat, ghost codes: seq<bv32>,
                 element: bv32, last: bool, uVar8: nat, uVar6: bv32) returns (emitted: nat, packed: bv32)
    requires table1.Length == 0x100 * blocks && slot < 0x100 && element <= 3
    requires uVar8 == |codes| < 8 * blocks && Pending(table1[..], blocks, slot, codes, Stored(uVar8, false), uVar6)
    modifies table1
    ensures emitted == uVar8 + 1
    ensures Pending(table1[..], blocks, slot, codes + [element], Stored(emitted, last), packed)
    ensures OthersKept(old(table1[..]), table1[..], slot)
  {
    hide Bits, Put, Holds, OthersKept, Pending;
    var iVar1 := uVar8 / 8;
    KeptOn(table1[..], table1[..], table1[..], slot);
    Accumulate(table1[..], blocks, slot, codes, uVar8 - uVar8 % 8, uVar6, element);
    packed := Put(uVar6, element, uVar8 % 8);
    PutSmall(uVar6, element, uVar8 % 8);
    emitted := uVar8 + 1;
    if emitted % 8 == 0 || last {
      Store(table1[..], blocks, slot, codes + [element], uVar8 - uVar8 % 8, packed);
      OneWord(table1[..], iVar1, slot, packed as bv16);
      table1[0x100 * iVar1 + slot] := packed as bv16;
      packed := 0;
    }
  }

  /** One phase of a transition, unless it is a leading no-op that is skipped. */
  method AddPhase(table1: array<bv16>, ghost blocks: nat, slot: nat, ghost codes: seq<bv32>, element: bv32, last: bool,
                  skipInit: bool, inInit: bool, uVar8: nat, uVar6: bv32)
    returns (emitted: nat, packed: bv32, stillInit: bool)
    requires table1.Length == 0x100 * blocks && slot < 0x100 && element <= 3
    requires uVar8 == |Emitted(codes, skipInit)| < 8 * blocks && (skipInit ==> inInit == (Emitted(codes, skipInit) == []))
    requires Pending(table1[..], blocks, slot, Emitted(codes, skipInit), Stored(uVar8, false), uVar6)
    modifies table1
    ensures var next := Emitted(codes + [element], skipInit);
            && emitted == |next| <= uVar8 + 1 && (skipInit ==> stillInit == (next == []))
            && Pending(table1[..], blocks, slot, next, Stored(emitted, last), packed)
    ensures OthersKept(old(table1[..]), table1[..], slot)
  {
    hide Pending, Emitted, Holds, Bits, OthersKept, Stored;
    EmittedSnoc(codes, element, skipInit);
    KeptOn(table1[..], table1[..], table1[..], slot);
    StoredEnds(0);
    emitted, packed, stillInit := uVar8, uVar6, inInit;
    if skipInit && element != 0 { stillInit := false; }
    if !(skipInit && stillInit) {
      emitted, packed := AddCode(table1, blocks, slot, Emitted(codes, skipInit), element, last, uVar8, uVar6);
    }
  }

  /** The inner loop: packs the codes of one transition and leaves the words of all others alone. */
  method PackTransition(tbl: seq<Byte>, wide: bool, row: nat, col: nat, tablePtr2: nat, elementCount: nat,
                        skipInit: bool, table1: array<bv16>, ghost blocks: nat)
    requires tablePtr2 == Position(wide, row, col, 0)
    requires row < 0x10 && col < 0x10 && (if wide then 0x400 * elementCount else 0x100 * elementCount) <= |tbl|
    requires blocks == (elementCount + 7) / 8 && table1.Length == 0x100 * blocks
    requires Holds(table1[..], blocks, 0x10 * row + col, [])
    modifies table1
    ensures Holds(table1[..], blocks, 0x10 * row + col, Emitted(Phases(tbl, wide, row, col, elementCount), skipInit))
    ensures OthersKept(old(table1[..]), table1[..], 0x10 * row + col)
  {
    PhasesNone(tbl, wide, row, col);
    StoredEnds(0);
    hide Pending, Emitted, Holds, Phases, Position, ElementSize, Bits, OthersKept, Stored;
    ghost var before := table1[..];
    KeptOn(before, before, before, 0x10 * row + col);
    var slot := 0x10 * row + col;
    var uVar8: nat, uVar6: bv32, inInit := 0, 0, true;
    var elementPtr := tablePtr2;
    ghost var codes: seq<bv32> := [];
    Restart(table1[..], blocks, slot, codes);
    EmittedNone(skipInit);
    var elementIdx := 0;
    while elementIdx != elementCount
      invariant elementIdx <= elementCount
      invariant elementPtr == Position(wide, row, col, elementIdx)
      invariant codes == Emitted(Phases(tbl, wide, row, col, elementIdx), skipInit)
      invariant uVar8 == |codes| <= elementIdx
      invariant skipInit ==> inInit == (codes == [])
      invariant Pending(table1[..], blocks, slot, codes, Stored(uVar8, elementIdx == elementCount), uVar6)
      invariant OthersKept(before, table1[..], slot)
    {
      PhasesNext(tbl, wide, row, col, elementIdx);
      var element := (tbl[elementPtr] & 3) as bv32;
      ghost var now := table1[..];
      uVar8, uVar6, inInit := AddPhase(table1, blocks, slot, Phases(tbl, wide, row, col, elementIdx), element,
                                       elementCount - 1 == elementIdx, skipInit, inInit, uVar8, uVar6);
      codes := Emitted(Phases(tbl, wide, row, col, elementIdx + 1), skipInit);
      KeptOn(before, now, table1[..], slot);
      elementIdx := elementIdx + 1;
      elementPtr := elementPtr + ElementSize(wide);
    }
    StoredEnds(uVar8);
    AllStored(table1[..], blocks, slot, codes, uVar6);
  }

  lemma StoredEnds(n: nat)
    ensures Stored(n, true) == n && Stored(0, false) == 0
  {
  }

  lemma PhasesNone(tbl: seq<Byte>, wide: bool, row: nat, col: nat)
    requires row < 0x10 && col < 0x10
    ensures Phases(tbl, wide, row, col, 0) == []
  {
  }

  /** The element pointer moves on by one matrix for every phase. */
  lemma PhasesNext(tbl: seq<Byte>, wide: bool, row: nat, col: nat, k: nat)
    requires row < 0x10 && col < 0x10 && (if wide then 0x400 * (k + 1) else 0x100 * (k + 1)) <= |tbl|
    ensures Position(wide, row, col, k) < |tbl|
    ensures Position(wide, row, col, k + 1) == Position(wide, row, col, k) + ElementSize(wide)
    ensures (tbl[Position(wide, row, col, k)] & 3) as bv32 <= 3
    ensures Phases(tbl, wide, row, col, k + 1)
         == Phases(tbl, wide, row, col, k) + [(tbl[Position(wide, row, col, k)] & 3) as bv32]
  {
  }

  lemma EmittedNone(skipInit: bool)
    ensures Emitted([], skipInit) == []
  {
  }

  lemma EmittedSnoc(codes: seq<bv32>, c: bv32, skipInit: bool)
    ensures Emitted(codes + [c], skipInit)
         == if skipInit && c == 0 && Emitted(codes, skipInit) == [] then [] else Emitted(codes, skipInit) + [c]
  {
    DropZerosSnoc(codes, c);
  }

  // ----- Whole tables

  /** The words of one transition hold its codes, taken from the transposed source position. */
  ghost predicate SlotPacked(words: seq<bv16>, blocks: nat, tbl: seq<Byte>, wide: bool, n: nat, skipInit: bool, slot: nat)
    requires (if wide then 0x400 * n else 0x100 * n) <= |tbl| && slot < 0x100
  {
    Holds(words, blocks, slot, Emitted(Phases(tbl, wide, slot / 0x10, slot % 0x10, n), skipInit))
  }

  /** The first `upTo` transitions are packed and all others are still zero. */
  ghost predicate PackedUpTo(words: seq<bv16>, blocks: nat, tbl: seq<Byte>, wide: bool, n: nat, skipInit: bool, upTo: nat)
    requires (if wide then 0x400 * n else 0x100 * n) <= |tbl| && upTo <= 0x100
  {
    && (forall slot: nat | slot < upTo :: SlotPacked(words, blocks, tbl, wide, n, skipInit, slot))
    && (forall slot: nat | upTo <= slot < 0x100 :: Holds(words, blocks, slot, []))
  }

  lemma HoldsFrame(before: seq<bv16>, after: seq<bv16>, blocks: nat, slot: nat, other: nat, codes: seq<bv32>)
    requires Holds(before, blocks, other, codes) && OthersKept(before, after, slot) && slot != other
    ensures Holds(after, blocks, other, codes)
  {
    hide WordHolds, Code;
    forall w: nat | w < blocks ensures WordHolds(WordOf(after, other, w), codes, w) {
      assert (0x100 * w + other) % 0x100 == other;
      assert WordHolds(WordOf(before, other, w), codes, w);
    }
  }

  lemma NextSlot(before: seq<bv16>, after: seq<bv16>, blocks: nat, tbl: seq<Byte>, wide: bool, n: nat, skipInit: bool,
                 slot: nat)
    requires (if wide then 0x400 * n else 0x100 * n) <= |tbl| && slot < 0x100
    requires PackedUpTo(before, blocks, tbl, wide, n, skipInit, slot)
    requires SlotPacked(after, blocks, tbl, wide, n, skipInit, slot) && OthersKept(before, after, slot)
    ensures PackedUpTo(after, blocks, tbl, wide, n, skipInit, slot + 1)
  {
    hide Holds, Emitted, OthersKept, Phases;
    forall s: nat | s < slot ensures SlotPacked(after, blocks, tbl, wide, n, skipInit, s) {
      assert SlotPacked(before, blocks, tbl, wide, n, skipInit, s);
      HoldsFrame(before, after, blocks, slot, s, Emitted(Phases(tbl, wide, s / 0x10, s % 0x10, n), skipInit));
    }
    forall s: nat | slot < s < 0x100 ensures Holds(after, blocks, s, []) {
      HoldsFrame(before, after, blocks, slot, s, []);
    }
  }

  /** The next transition is still zero. */
  lemma OpenSlot(words: seq<bv16>, blocks: nat, tbl: seq<Byte>, wide: bool, n: nat, skipInit: bool, slot: nat)
    requires (if wide then 0x400 * n else 0x100 * n) <= |tbl| && slot < 0x100
    requires PackedUpTo(words, blocks, tbl, wide, n, skipInit, slot)
    ensures Holds(words, blocks, slot, [])
  {
  }

  /** The two outer loops of the packer over a zero-filled table. */
  method PackTable(tbl: seq<Byte>, wide: bool, elementCount: nat, skipInit: bool) returns (table1: array<bv16>)
    requires (if wide then 0x400 * elementCount else 0x100 * elementCount) <= |tbl|
    ensures fresh(table1) && table1.Length == 0x100 * ((elementCount + 7) / 8)
    ensures PackedUpTo(table1[..], (elementCount + 7) / 8, tbl, wide, elementCount, skipInit, 0x100)
  {
    hide Holds, Emitted, Phases, PackedUpTo, OthersKept;
    var blocks := (elementCount + 7) / 8;
    table1 := new bv16[0x100 * blocks](_ => 0);
    NothingPacked(table1[..], blocks, tbl, wide, elementCount, skipInit);
    var ptr1Inc, ptr2Inc := if wide then 2 else 1, if wide then 0x40 else 0x10;
    var row, tablePtr1 := 0, 0;
    while row != 0x10
      invariant row <= 0x10 && fresh(table1) && tablePtr1 == Position(wide, row, 0, 0)
      invariant PackedUpTo(table1[..], blocks, tbl, wide, elementCount, skipInit, 0x10 * row)
    {
      var col, tablePtr2 := 0, tablePtr1;
      while col != 0x10
        invariant col <= 0x10 && fresh(table1) && tablePtr2 == Position(wide, row, col, 0)
        invariant PackedUpTo(table1[..], blocks, tbl, wide, elementCount, skipInit, 0x10 * row + col)
      {
        ghost var before := table1[..];
        OpenSlot(before, blocks, tbl, wide, elementCount, skipInit, 0x10 * row + col);
        PackTransition(tbl, wide, row, col, tablePtr2, elementCount, skipInit, table1, blocks);
        NextSlot(before, table1[..], blocks, tbl, wide, elementCount, skipInit, 0x10 * row + col);
        col, tablePtr2 := col + 1, tablePtr2 + ptr2Inc;
      }
      row, tablePtr1 := row + 1, tablePtr1 + ptr1Inc;
    }
  }

  lemma NothingPacked(words: seq<bv16>, blocks: nat, tbl: seq<Byte>, wide: bool, n: nat, skipInit: bool)
    requires (if wide then 0x400 * n else 0x100 * n) <= |tbl|
    requires |words| == 0x100 * blocks && forall i | 0 <= i < |words| :: words[i] == 0
    ensures PackedUpTo(words, blocks, tbl, wide, n, skipInit, 0)
  {
    ZeroTable(words, blocks);
  }

  lemma ZeroTable(words: seq<bv16>, blocks: nat)
    requires |words| == 0x100 * blocks && forall i | 0 <= i < |words| :: words[i] == 0
    ensures forall slot: nat | slot < 0x100 :: Holds(words, blocks, slot, [])
  {
    forall slot: nat, w: nat | slot < 0x100 && w < blocks ensures WordHolds(WordOf(words, slot, w), [], w) {
      forall j: nat | j < 8 ensures Code(0, j) == 0 { ZeroWord(j); }
    }
  }

  /** Element in row `r` and column `c` of the `k`-th of the square matrices that make up a decoded table. */
  function MatrixAt(tbl: seq<Byte>, side: nat, k: nat, r: nat, c: nat): Byte {
    var i := side * side * k + side * r + c;
    if i < |tbl| then tbl[i] else 0
  }

  /** Transposed: the element for word row `row` and word column `col` is in row `col` and column `row` of its matrix. */
  function ElementAt(tbl: seq<Byte>, wide: bool, row: nat, col: nat, k: nat): Byte {
    if wide then MatrixAt(tbl, 32, k, 2 * col, 2 * row) else MatrixAt(tbl, 16, k, col, row)
  }

  lemma ElementIs(tbl: seq<Byte>, wide: bool, row: nat, col: nat, k: nat)
    requires Position(wide, row, col, k) < |tbl|
    ensures ElementAt(tbl, wide, row, col, k) == tbl[Position(wide, row, col, k)]
  {
    assert 32 * 32 * k == 0x400 * k && 16 * 16 * k == 0x100 * k;
  }

  lemma {:induction false} PhasesAt(tbl: seq<Byte>, wide: bool, row: nat, col: nat, n: nat, k: nat)
    requires row < 0x10 && col < 0x10 && (if wide then 0x400 * n else 0x100 * n) <= |tbl| && k < n
    ensures Position(wide, row, col, k) < |tbl|
    ensures Phases(tbl, wide, row, col, n)[k] == (tbl[Position(wide, row, col, k)] & 3) as bv32
  {
    if k < n - 1 { PhasesAt(tbl, wide, row, col, n - 1, k); }
  }

  lemma PhasesElement(tbl: seq<Byte>, wide: bool, row: nat, col: nat, n: nat, k: nat)
    requires row < 0x10 && col < 0x10 && (if wide then 0x400 * n else 0x100 * n) <= |tbl| && k < n
    ensures Phases(tbl, wide, row, col, n)[k] == (ElementAt(tbl, wide, row, col, k) & 3) as bv32
    ensures Phases(tbl, wide, row, col, n)[k] == 0 ==> ElementAt(tbl, wide, row, col, k) & 3 == 0
  {
    PhasesAt(tbl, wide, row, col, n, k);
    ElementIs(tbl, wide, row, col, k);
    ZeroCode(ElementAt(tbl, wide, row, col, k));
    hide Phases, ElementAt, Position;
  }

  lemma ZeroCode(b: Byte)
    ensures (b & 3) as bv32 == 0 ==> b & 3 == 0
  {
  }

  lemma PackedCodes(words: seq<bv16>, tbl: seq<Byte>, wide: bool, n: nat, skipInit: bool, row: nat, col: nat,
                    d: nat, k: nat)
    requires row < 0x10 && col < 0x10 && (if wide then 0x400 * n else 0x100 * n) <= |tbl|
    requires PackedUpTo(words, (n + 7) / 8, tbl, wide, n, skipInit, 0x100)
    requires d == n - |Emitted(Phases(tbl, wide, row, col, n), skipInit)| && k < n
    ensures !skipInit ==> d == 0
    ensures forall j | 0 <= j < d :: Phases(tbl, wide, row, col, n)[j] == 0
    ensures 0x100 * (k / 8) + (0x10 * row + col) < |words|
    ensures Code(words[0x100 * (k / 8) + (0x10 * row + col)], k % 8) == CodeAt(Phases(tbl, wide, row, col, n), d + k)
  {
    hide DropZeros, Holds, Code, Phases;
    var codes, slot := Phases(tbl, wide, row, col, n), 0x10 * row + col;
    DropZerosIsSuffix(codes);
    assert slot / 0x10 == row && slot % 0x10 == col;
    assert SlotPacked(words, (n + 7) / 8, tbl, wide, n, skipInit, slot);
    SlotSize(words, (n + 7) / 8, slot, Emitted(codes, skipInit));
    Unpack(words, (n + 7) / 8, slot, Emitted(codes, skipInit), k);
  }

  /**
   Nothing is lost: unpacking gives back every code of every transition, in order, after the `d` leading no-op phases
   when these are skipped (d is 0 when they are not) and with zeros at the end. `ElementAt` is the transposed element.
   */
  lemma PackedLosslessly(words: seq<bv16>, tbl: seq<Byte>, wide: bool, n: nat, skipInit: bool, row: nat, col: nat,
                         d: nat, k: nat)
    requires row < 0x10 && col < 0x10 && (if wide then 0x400 * n else 0x100 * n) <= |tbl|
    requires PackedUpTo(words, (n + 7) / 8, tbl, wide, n, skipInit, 0x100)
    requires d == n - |Emitted(Phases(tbl, wide, row, col, n), skipInit)| && k < n
    ensures !skipInit ==> d == 0
    ensures forall j: nat | j < d :: ElementAt(tbl, wide, row, col, j) & 3 == 0
    ensures 0x100 * (k / 8) + (0x10 * row + col) < |words|
    ensures Code(words[0x100 * (k / 8) + (0x10 * row + col)], k % 8)
         == if d + k < n then (ElementAt(tbl, wide, row, col, d + k) & 3) as bv32 else 0
  {
    PackedCodes(words, tbl, wide, n, skipInit, row, col, d, k);
    hide PackedUpTo, Emitted, Code, Phases, ElementAt;
    forall j: nat | j < d ensures ElementAt(tbl, wide, row, col, j) & 3 == 0 { PhasesElement(tbl, wide, row, col, n, j); }
    if d + k < n { PhasesElement(tbl, wide, row, col, n, d + k); }
  }

  /** Decoded bytes are codes already, so masking them changes nothing. */
  lemma PhasesPlain(tbl: seq<Byte>, wide: bool, row: nat, col: nat, n: nat)
    requires row < 0x10 && col < 0x10 && (if wide then 0x400 * n else 0x100 * n) <= |tbl|
    requires AreCodes(tbl)
    ensures forall j: nat | j < n ::
              && Position(wide, row, col, j) < |tbl|
              && tbl[Position(wide, row, col, j)] as bv32 == Phases(tbl, wide, row, col, n)[j]
              && (Phases(tbl, wide, row, col, n)[j] == 0 <==> tbl[Position(wide, row, col, j)] == 0)
  {
    forall j: nat | j < n
      ensures Position(wide, row, col, j) < |tbl|
      ensures tbl[Position(wide, row, col, j)] as bv32 == Phases(tbl, wide, row, col, n)[j]
      ensures Phases(tbl, wide, row, col, n)[j] == 0 <==> tbl[Position(wide, row, col, j)] == 0
    {
      PhasesAt(tbl, wide, row, col, n, j);
      assert tbl[Position(wide, row, col, j)] in tbl;
      SmallCode(tbl[Position(wide, row, col, j)]);
    }
  }

  /** Number of leading no-op phases of a transition that are not packed. */
  function Skipped(tbl: seq<Byte>, wide: bool, row: nat, col: nat, n: nat, skipInit: bool): int
    requires row < 0x10 && col < 0x10 && (if wide then 0x400 * n else 0x100 * n) <= |tbl|
  {
    n - |Emitted(Phases(tbl, wide, row, col, n), skipInit)|
  }

  /** Unpacking `words` gives back the elements of the decoded table itself, without the skipped ones, which are zero. */
  ghost predicate UnpacksTo(words: seq<bv16>, tbl: seq<Byte>, wide: bool, n: nat, skipInit: bool)
    requires (if wide then 0x400 * n else 0x100 * n) <= |tbl|
  {
    forall row: nat, col: nat | row < 0x10 && col < 0x10 ::
      TransitionUnpacks(words, tbl, wide, n, row, col, skipInit)
  }

  ghost predicate TransitionUnpacks(words: seq<bv16>, tbl: seq<Byte>, wide: bool, n: nat, row: nat, col: nat, skipInit: bool)
    requires row < 0x10 && col < 0x10 && (if wide then 0x400 * n else 0x100 * n) <= |tbl|
  {
    exists d: nat :: SlotUnpacksTo(words, tbl, wide, n, row, col, skipInit, d)
  }

  /** The `d` elements skipped are the leading zeros, or none. */
  ghost predicate SlotUnpacksTo(words: seq<bv16>, tbl: seq<Byte>, wide: bool, n: nat, row: nat, col: nat,
                                skipInit: bool, d: nat)
    requires row < 0x10 && col < 0x10 && (if wide then 0x400 * n else 0x100 * n) <= |tbl|
  {
    && d <= n && (!skipInit ==> d == 0) && (skipInit && d < n ==> ElementAt(tbl, wide, row, col, d) != 0)
    && (forall j: nat | j < d :: ElementAt(tbl, wide, row, col, j) == 0)
    && (forall k: nat | k < n ::
          && 0x100 * (k / 8) + (0x10 * row + col) < |words|
          && Code(WordOf(words, 0x10 * row + col, k / 8), k % 8)
             == if d + k < n then ElementAt(tbl, wide, row, col, d + k) as bv32 else 0)
  }

  lemma SlotUnpacks(words: seq<bv16>, tbl: seq<Byte>, wide: bool, n: nat, skipInit: bool, row: nat, col: nat)
    requires row < 0x10 && col < 0x10 && (if wide then 0x400 * n else 0x100 * n) <= |tbl|
    requires PackedUpTo(words, (n + 7) / 8, tbl, wide, n, skipInit, 0x100) && AreCodes(tbl)
    ensures 0 <= Skipped(tbl, wide, row, col, n, skipInit)
    ensures SlotUnpacksTo(words, tbl, wide, n, row, col, skipInit, Skipped(tbl, wide, row, col, n, skipInit))
  {
    var (codes, d) := (Phases(tbl, wide, row, col, n), Skipped(tbl, wide, row, col, n, skipInit));
    hide PackedUpTo, Code, Position, Phases, DropZeros, SlotUnpacksTo, ElementAt;
    PhasesPlain(tbl, wide, row, col, n);
    DropZerosIsSuffix(codes);
    forall j: nat | j < n ensures ElementAt(tbl, wide, row, col, j) == tbl[Position(wide, row, col, j)] {
      ElementIs(tbl, wide, row, col, j);
    }
    forall k: nat | k < n
      ensures 0x100 * (k / 8) + (0x10 * row + col) < |words|
      ensures Code(WordOf(words, 0x10 * row + col, k / 8), k % 8) == CodeAt(codes, d + k)
    {
      PackedCodes(words, tbl, wide, n, skipInit, row, col, d, k);
    }
    assert 0 <= d <= n && (!skipInit ==> d == 0) && (skipInit && d < n ==> codes[d] != 0);
    CodesAreElements(words, tbl, wide, n, row, col, skipInit, d, codes);
  }

  lemma CodesAreElements(words: seq<bv16>, tbl: seq<Byte>, wide: bool, n: nat, row: nat, col: nat, skipInit: bool, d: nat,
                         codes: seq<bv32>)
    requires row < 0x10 && col < 0x10 && (if wide then 0x400 * n else 0x100 * n) <= |tbl| && |codes| == n && d <= n
    requires forall j: nat | j < n ::
               && ElementAt(tbl, wide, row, col, j) as bv32 == codes[j]
               && (codes[j] == 0 <==> ElementAt(tbl, wide, row, col, j) == 0)
    requires (!skipInit ==> d == 0) && (skipInit && d < n ==> codes[d] != 0) && forall j: nat | j < d :: codes[j] == 0
    requires forall k: nat | k < n ::
               && 0x100 * (k / 8) + (0x10 * row + col) < |words|
               && Code(WordOf(words, 0x10 * row + col, k / 8), k % 8) == CodeAt(codes, d + k)
    ensures SlotUnpacksTo(words, tbl, wide, n, row, col, skipInit, d)
  {
    hide ElementAt, Code, WordOf;
  }

  /** For the tables that the decoder produces: their elements are codes, so packing loses nothing of them. */
  lemma TableUnpacks(data: seq<Byte>, mode: nat, temp: nat, words: seq<bv16>, wide: bool, n: nat, skipInit: bool)
    requires TableReadable(data, mode, temp)
    requires (if wide then 0x400 * n else 0x100 * n) <= |Table(data, mode, temp)|
    requires PackedUpTo(words, (n + 7) / 8, Table(data, mode, temp), wide, n, skipInit, 0x100)
    ensures UnpacksTo(words, Table(data, mode, temp), wide, n, skipInit)
  {
    var (tbl, p) := (Table(data, mode, temp), GetTablePtr(data, mode, temp));
    if p.Some? { ExpandsToCodes(data, data[0x28], data[0x29], p.value, true); }
    assert AreCodes(tbl);
    hide PackedUpTo, Table, SlotUnpacksTo, Skipped;
    forall row: nat, col: nat | row < 0x10 && col < 0x10
      ensures TransitionUnpacks(words, tbl, wide, n, row, col, skipInit)
    {
      SlotUnpacks(words, tbl, wide, n, skipInit, row, col);
    }
  }

  lemma SlotSize(words: seq<bv16>, blocks: nat, slot: nat, codes: seq<bv32>)
    requires Holds(words, blocks, slot, codes)
    ensures |words| == 0x100 * blocks
  {
  }

  lemma SmallCode(b: Byte)
    requires b <= 3
    ensures (b & 3) as bv32 == b as bv32 && (b as bv32 == 0 <==> b == 0)
  {
  }

  /** Transitions from a grey level to itself: the words whose position in their block is a multiple of 0x11. */
  predicate OnDiagonal(i: nat) { i % 0x100 % 0x11 == 0 }

  /** These are the words whose row and column in their block are the same. */
  lemma DiagonalIs(block: nat, row: nat, col: nat)
    requires row < 0x10 && col < 0x10
    ensures OnDiagonal(0x100 * block + 0x10 * row + col) <==> row == col
  {
    var j := 0x10 * row + col;
    assert (0x100 * block + j) % 0x100 == j;
    if row == col { assert j == 0x11 * row; }
    if j % 0x11 == 0 { assert j == 0x11 * (j / 0x11) && j / 0x11 < 0x10; }
  }

  /** The word of a transition in a block of 256, or 0 beyond the table. */
  function WordAt(words: seq<bv16>, block: nat, row: nat, col: nat): bv16 {
    var i := 0x100 * block + 0x10 * row + col;
    if i < |words| then words[i] else 0
  }

  /** `partial` is `full` with the diagonal of every block zeroed. */
  ghost predicate DiagonalCleared(full: seq<bv16>, partial: seq<bv16>) {
    && |partial| == |full|
    && forall block: nat, row: nat, col: nat | row < 0x10 && col < 0x10 ::
         WordAt(partial, block, row, col) == if row == col then 0 else WordAt(full, block, row, col)
  }

  /** The partial-update table: a copy of the full one with the diagonal of every block zeroed. */
  method ClearDiagonal(table1: array<bv16>, blocks: nat) returns (table2: array<bv16>)
    requires table1.Length == 0x100 * blocks
    ensures fresh(table2) && DiagonalCleared(table1[..], table2[..])
  {
    table2 := new bv16[table1.Length](i requires 0 <= i < table1.Length reads table1 => table1[i]);
    var block, table2Ptr := 0, 0;
    while table2Ptr != table2.Length
      invariant block <= blocks && table2Ptr == 0x100 * block && fresh(table2)
      invariant forall i | 0 <= i < table2Ptr :: table2[i] == if OnDiagonal(i) then 0 else table1[i]
      invariant forall i | table2Ptr <= i < table2.Length :: table2[i] == table1[i]
      decreases blocks - block
    {
      ZeroDiagonal(table2, table2Ptr);
      forall i | table2Ptr <= i < table2Ptr + 0x100 ensures OnDiagonal(i) <==> (i - table2Ptr) % 0x11 == 0 {
        assert i % 0x100 == i - table2Ptr;
      }
      table2Ptr := table2Ptr + 0x100;
      block := block + 1;
    }
    Cleared(table1[..], table2[..]);
  }

  lemma Cleared(full: seq<bv16>, partial: seq<bv16>)
    requires |partial| == |full| && forall i | 0 <= i < |full| :: partial[i] == if OnDiagonal(i) then 0 else full[i]
    ensures DiagonalCleared(full, partial)
  {
    forall block: nat, row: nat, col: nat | row < 0x10 && col < 0x10
      ensures WordAt(partial, block, row, col) == if row == col then 0 else WordAt(full, block, row, col)
    {
      DiagonalIs(block, row, col);
    }
  }

  /** The diagonal of one block of 0x100 words. */
  method ZeroDiagonal(table2: array<bv16>, table2Ptr: nat)
    requires table2Ptr + 0x100 <= table2.Length
    modifies table2
    ensures forall i | 0 <= i < table2.Length :: table2[i] ==
              if table2Ptr <= i < table2Ptr + 0x100 && (i - table2Ptr) % 0x11 == 0 then 0 else old(table2[i])
  {
    var offset := 0;
    while offset != 0x110
      invariant offset <= 0x110 && offset % 0x11 == 0
      invariant forall i | 0 <= i < table2.Length :: table2[i] ==
                  if table2Ptr <= i < table2Ptr + offset && i < table2Ptr + 0x100 && (i - table2Ptr) % 0x11 == 0 then 0
                  else old(table2[i])
      decreases 0x110 - offset
    {
      table2[table2Ptr + offset] := 0;
      offset := offset + 0x11;
    }
  }

  /** What one entry of the global table points to. */
  datatype TableInfo = TableInfo(elementCount: nat, full: array<bv16>, partial: array<bv16>)

  predicate Wide(data: seq<Byte>)
    requires |data| > 0x24
  {
    data[0x24] & 0xc == 4
  }

  /** Bits 2 and 3 of the byte hold 1. */
  lemma WideIs(data: seq<Byte>)
    requires |data| > 0x24
    ensures Wide(data) <==> data[0x24] / 4 % 4 == 1
  {
    var b := data[0x24];
    assert b & 0xc == 4 <==> b / 4 % 4 == 1;
  }

  method IsWide(data: seq<Byte>, ghost mode: nat, ghost temp: nat) returns (wide: bool)
    requires TableReadable(data, mode, temp)
    ensures wide <==> data[0x24] / 4 % 4 == 1
  {
    WideIs(data);
    wide := Wide(data);
  }

  /** One temperature of readWaveformTable; None when the table is missing or empty. */
  method ReadWaveformTable(data: seq<Byte>, mode: nat, temp: nat, separatePartialTable: bool, skipInit: bool)
    returns (info: Option<TableInfo>)
    requires TableReadable(data, mode, temp)
    ensures info.None? <==> Table(data, mode, temp) == []
    ensures info.Some? ==>
              var (tbl, i, wide) := (Table(data, mode, temp), info.value, data[0x24] / 4 % 4 == 1);
              && i.elementCount == (if wide then |tbl| / (32 * 32) else |tbl| / (16 * 16)) && fresh(i.full)
              && PackedUpTo(i.full[..], (i.elementCount + 7) / 8, tbl, wide, i.elementCount, skipInit, 0x100)
              && UnpacksTo(i.full[..], tbl, wide, i.elementCount, skipInit)
    ensures info.Some? && !separatePartialTable ==> info.value.partial == info.value.full
    ensures info.Some? && separatePartialTable ==>
              && info.value.partial != info.value.full && fresh(info.value.partial)
              && DiagonalCleared(info.value.full[..], info.value.partial[..])
  {
    hide PackedUpTo, UnpacksTo, DiagonalCleared, Table, TableReadable;
    var tablePtr := ReadTable(data, mode, temp);
    if tablePtr == null { return None; }
    var wide := IsWide(data, mode, temp);
    var elementCount := tablePtr.Length / ElementSize(wide);
    var table1 := PackTable(tablePtr[..], wide, elementCount, skipInit);
    TableUnpacks(data, mode, temp, table1[..], wide, elementCount, skipInit);
    if !separatePartialTable {
      return Some(TableInfo(elementCount, table1, table1));
    }
    var table2 := ClearDiagonal(table1, (elementCount + 7) / 8);
    return Some(TableInfo(elementCount, table1, table2));
  }

  /** The init table of one temperature: the first code of every phase. */
  method ReadInitTable(data: seq<Byte>, temp: nat) returns (elements: array?<Byte>)
    requires TableReadable(data, 0, temp)
    ensures elements == null <==> Table(data, 0, temp) == []
    ensures elements != null ==>
              var (tbl, wide) := (Table(data, 0, temp), data[0x24] / 4 % 4 == 1);
              && fresh(elements) && elements.Length == (if wide then |tbl| / (32 * 32) else |tbl| / (16 * 16))
              && forall k | 0 <= k < elements.Length :: elements[k] == tbl[if wide then 32 * 32 * k else 16 * 16 * k]
  {
    WideIs(data);
    var tbl := ReadTable(data, 0, temp);
    if tbl == null { return null; }
    var wide := Wide(data);
    var elementSize := ElementSize(wide);
    var elementCount := tbl.Length / elementSize;
    ghost var table := Table(data, 0, temp);
    elements := new Byte[elementCount];
    var i := 0;
    while i < elementCount
      invariant i <= elementCount && fresh(elements) && elements.Length == elementCount
      invariant elements != tbl && tbl[..] == table
      invariant forall k | 0 <= k < i :: elements[k] == table[if wide then 32 * 32 * k else 16 * 16 * k]
    {
      elements[i] := tbl[i * elementSize];
      i := i + 1;
    }
  }
}
