/** Lazy clearing of pan buffers: clearDirtyBuffer (libs/swtcon/Vsync.cpp:25-53). */
module PanBuffers {

  /** One line of a pan buffer; a phase is a row of lines, the first three of which are a fixed preamble. */
  type Line = seq<bv8>

  const PREAMBLE := 3
  const PHASES := 0x10
  const INIT_SLOTS := 3  // slots that a clear request uses

  /** normPhase (libs/swtcon/Util.h:5-8): the slot of a pan phase; a negative phase gives no slot. */
  function NormPhase(pan: int): int { if pan < 0 then -((-pan) % PHASES) else pan % PHASES }

  /** The 16 slots are taken in turn. */
  lemma NormPhaseIs(pan: int)
    requires pan >= 0
    ensures 0 <= NormPhase(pan) < 16 && exists lap: nat :: pan == 16 * lap + NormPhase(pan)
  {
    assert pan == 16 * (pan / 16) + NormPhase(pan);
  }

  /** What the lazy clear does to the content lines of a phase: only flagged lines are overwritten. */
  function LazyClear(content: seq<Line>, dirty: seq<bv8>, zero: Line): (cleared: seq<Line>)
    requires |content| == |dirty|
    ensures |cleared| == |content|
  {
    seq(|content|, i requires 0 <= i < |content| => if dirty[i] != 0 then zero else content[i])
  }

  /** What copying the whole zero buffer over it would do. */
  function FullClear(content: seq<Line>, zero: Line): seq<Line> { seq(|content|, _ => zero) }

  /** Every line that differs from the zero line is flagged. */
  ghost predicate Covered(content: seq<Line>, dirty: seq<bv8>, zero: Line)
    requires |content| == |dirty|
  {
    forall i | 0 <= i < |content| :: content[i] != zero ==> dirty[i] != 0
  }

  /** Lazy and full clearing agree exactly when the flags cover the content. */
  lemma LazyRefinesFull(content: seq<Line>, dirty: seq<bv8>, zero: Line)
    requires |content| == |dirty|
    ensures LazyClear(content, dirty, zero) == FullClear(content, zero) <==> Covered(content, dirty, zero)
  {
    if LazyClear(content, dirty, zero) == FullClear(content, zero) {
      forall i | 0 <= i < |content| ensures content[i] != zero ==> dirty[i] != 0 {
        assert LazyClear(content, dirty, zero)[i] == FullClear(content, zero)[i];
      }
    }
  }

  class Buffers {
    const screenWidth: nat
    const lines: array2<Line>       // one row per phase, and one more for the empty phase 0x10
    const dirtyColumns: array2<bv8> // one row per phase
    const zeroBuffer: seq<Line>     // preamble and content of an empty phase; all its content lines are the same

    ghost predicate Valid() {
      && lines.Length0 == PHASES + 1 && lines.Length1 == |zeroBuffer| > PREAMBLE + screenWidth
      && dirtyColumns.Length0 == PHASES && dirtyColumns.Length1 == screenWidth
      && forall i | PREAMBLE <= i < |zeroBuffer| :: zeroBuffer[i] == zeroBuffer[PREAMBLE]
    }

    function ZeroLine(): Line
      requires Valid()
    {
      zeroBuffer[PREAMBLE]
    }

    /** The lines of a phase that have a dirty flag. */
    ghost function Content(phase: nat): (content: seq<Line>)
      requires Valid() && phase < PHASES
      reads lines
      ensures |content| == screenWidth
    {
      seq(screenWidth, i requires 0 <= i < screenWidth reads lines => lines[phase, PREAMBLE + i])
    }

    ghost function Flags(phase: nat): (flags: seq<bv8>)
      requires Valid() && phase < PHASES
      reads dirtyColumns
      ensures |flags| == screenWidth
    {
      seq(screenWidth, i requires 0 <= i < screenWidth reads dirtyColumns => dirtyColumns[phase, i])
    }

    /** The content of all phases. */
    ghost function Contents(): (contents: seq<seq<Line>>)
      requires Valid()
      reads lines
      ensures |contents| == PHASES
    {
      seq(PHASES, p requires 0 <= p < PHASES reads lines => Content(p))
    }

    ghost function AllFlags(): (flags: seq<seq<bv8>>)
      requires Valid()
      reads dirtyColumns
      ensures |flags| == PHASES
    {
      seq(PHASES, p requires 0 <= p < PHASES reads dirtyColumns => Flags(p))
    }

    /** Content and flags of a cleared phase. */
    ghost function NoContent(): seq<Line>
      requires Valid()
    {
      seq(screenWidth, _ => ZeroLine())
    }

    ghost function NoFlags(): seq<bv8> { seq(screenWidth, _ => 0) }

    /** The flags of every phase cover its content, so that lazy clearing is enough. */
    ghost predicate AllCovered()
      requires Valid()
      reads lines, dirtyColumns
    {
      forall phase: nat | phase < PHASES :: Covered(Content(phase), Flags(phase), ZeroLine())
    }

    constructor (screenWidth: nat, zeroBuffer: seq<Line>)
      requires |zeroBuffer| > PREAMBLE + screenWidth
      requires forall i | PREAMBLE <= i < |zeroBuffer| :: zeroBuffer[i] == zeroBuffer[PREAMBLE]
      ensures Valid() && this.screenWidth == screenWidth && this.zeroBuffer == zeroBuffer
      ensures fresh(lines) && fresh(dirtyColumns) && AllCovered()
    {
      this.screenWidth, this.zeroBuffer := screenWidth, zeroBuffer;
      lines := new Line[PHASES + 1, |zeroBuffer|]((p, i) requires 0 <= i < |zeroBuffer| => zeroBuffer[i]);
      dirtyColumns := new bv8[PHASES, screenWidth]((_, _) => 0);
    }

    /** The generator's side: writing a line sets its flag. */
    method DrawColumn(pan: int, column: nat, line: Line)
      requires Valid() && pan >= 0 && column < screenWidth
      modifies lines, dirtyColumns
      ensures Content(NormPhase(pan)) == old(Content(NormPhase(pan)))[column := line]
      ensures forall p: nat | p < PHASES && p != NormPhase(pan) ::
                Content(p) == old(Content(p)) && Flags(p) == old(Flags(p))
      ensures old(AllCovered()) ==> AllCovered()
    {
      var phase := NormPhase(pan);
      ghost var content, flags := Content(phase), Flags(phase);
      lines[phase, PREAMBLE + column] := line;
      dirtyColumns[phase, column] := 1;
      assert Flags(phase) == flags[column := 1];
    }

    /**
     Clears a phase lazily and resets its flags. When the flags cover the content this equals copying the whole zero
     buffer; the other phases and the preambles are left alone.
     */
    method ClearDirtyBuffer(pan: int)
      requires Valid() && pan >= 0
      modifies lines, dirtyColumns
      ensures Contents() == old(Contents())[NormPhase(pan) :=
                LazyClear(old(Content(NormPhase(pan))), old(Flags(NormPhase(pan))), ZeroLine())]
      ensures AllFlags() == old(AllFlags())[NormPhase(pan) := NoFlags()]
      ensures forall p, i | 0 <= p < lines.Length0 && 0 <= i < lines.Length1
                && (p != NormPhase(pan) || i < PREAMBLE) :: lines[p, i] == old(lines[p, i])
      ensures old(AllCovered()) ==> Contents() == old(Contents())[NormPhase(pan) := NoContent()] && AllCovered()
    {
      var phase := NormPhase(pan);
      ClearLines(phase);
      ResetFlags(phase);
      ghost var content, flags := old(Content(phase)), old(Flags(phase));
      assert forall p: nat | p < PHASES && p != phase :: Content(p) == old(Content(p));
      LazyRefinesFull(content, flags, ZeroLine());
      assert FullClear(content, ZeroLine()) == NoContent();
    }

    /** The loop over the lines of a phase. */
    method ClearLines(phase: nat)
      requires Valid() && phase < PHASES
      modifies lines
      ensures Content(phase) == LazyClear(old(Content(phase)), Flags(phase), ZeroLine())
      ensures forall p, i | 0 <= p < lines.Length0 && 0 <= i < lines.Length1 && (p != phase || i < PREAMBLE) ::
                lines[p, i] == old(lines[p, i])
    {
      ghost var content, flags := Content(phase), Flags(phase);
      var i := 0;
      while i != screenWidth
        invariant i <= screenWidth && Flags(phase) == flags
        invariant forall k | 0 <= k < screenWidth ::
                    lines[phase, PREAMBLE + k] == if k < i && flags[k] != 0 then ZeroLine() else content[k]
        invariant forall p, k | 0 <= p < lines.Length0 && 0 <= k < lines.Length1
                    && (p != phase || k < PREAMBLE) :: lines[p, k] == old(lines[p, k])
      {
        assert dirtyColumns[phase, i] == flags[i];
        if dirtyColumns[phase, i] != 0 {
          lines[phase, PREAMBLE + i] := ZeroLine();
        }
        i := i + 1;
      }
      assert Content(phase) == LazyClear(content, flags, ZeroLine());
    }

    /** The final memset over the flags of one phase. */
    method ResetFlags(phase: nat)
      requires Valid() && phase < PHASES
      modifies dirtyColumns
      ensures Flags(phase) == NoFlags()
      ensures forall p: nat | p < PHASES && p != phase :: Flags(p) == old(Flags(p))
    {
      forall i | 0 <= i < screenWidth { dirtyColumns[phase, i] := 0; }
      assert forall p: nat | p < PHASES && p != phase :: Flags(p) == old(Flags(p));
    }

    /** After an init waveform: the slots it was drawn in, 0 to 2, are overwritten with the zero buffer; no flag changes. */
    method ZeroInitSlots()
      requires Valid()
      modifies lines
      ensures Contents() == old(Contents())[0 := NoContent()][1 := NoContent()][2 := NoContent()]
      ensures forall p, i | INIT_SLOTS <= p < lines.Length0 && 0 <= i < lines.Length1 :: lines[p, i] == old(lines[p, i])
      ensures old(AllCovered()) ==> AllCovered()
    {
      forall p, i | 0 <= p < INIT_SLOTS && 0 <= i < lines.Length1 { lines[p, i] := zeroBuffer[i]; }
      assert forall p: nat | INIT_SLOTS <= p < PHASES :: Content(p) == old(Content(p));
      assert forall p: nat | p < INIT_SLOTS :: Content(p) == NoContent();
      assert forall p: nat | p < PHASES :: Flags(p) == old(Flags(p));
    }
  }
}
