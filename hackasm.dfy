/**
 * The assembler driver. One pass over the scanner's instructions emits one
 * word per A- or C-instruction, binds labels to the number of words before
 * them, and for each use of a symbol not yet known records the word's 1-based
 * position and emits the placeholder "replace". A backfill pass, in whatever
 * order the deferred symbols come, gives every symbol still unknown the next
 * RAM address from 16 up and overwrites the recorded positions.
 */
module HackAsm {
  import opened Options
  import opened Numerals
  import opened HackParser
  import Code

  const Screen: u16 := 16384
  const Keyboard: u16 := 24576

  /** The 23 symbols Assembler::new seeds the symbol table with. */
  const Predefined: map<string, u16> := map[
    "R0" := 0, "SP" := 0, "R1" := 1, "LCL" := 1, "R2" := 2, "ARG" := 2,
    "R3" := 3, "THIS" := 3, "R4" := 4, "THAT" := 4, "R5" := 5, "R6" := 6,
    "R7" := 7, "R8" := 8, "R9" := 9, "R10" := 10, "R11" := 11, "R12" := 12,
    "R13" := 13, "R14" := 14, "R15" := 15, "SCREEN" := Screen, "KBD" := Keyboard]

  /** The sixteen virtual registers, R0 to R15 in order. */
  const Registers: seq<string> := ["R0", "R1", "R2", "R3", "R4", "R5", "R6", "R7",
    "R8", "R9", "R10", "R11", "R12", "R13", "R14", "R15"]

  /** The other predefined names: the VM segment bases and the two memory-mapped devices. */
  const Named: set<string> := {"SP", "LCL", "ARG", "THIS", "THAT", "SCREEN", "KBD"}

  /** Assembler::new seeds the registers and the named symbols, and nothing else. */
  lemma {:induction false} PredefinedDomain()
    ensures forall s :: s in Predefined <==> s in Registers || s in Named
  {
  }

  /** Rn names address n. */
  lemma {:induction false} PredefinedRegisters()
    ensures forall i :: 0 <= i < |Registers| ==> Registers[i] in Predefined && Predefined[Registers[i]] as int == i
  {
    forall i | 0 <= i < |Registers|
      ensures Registers[i] in Predefined && Predefined[Registers[i]] as int == i
    {
      if i < 8 {
        if i < 4 { } else { }
      } else {
        if i < 12 { } else { }
      }
    }
  }

  /** SP, LCL, ARG, THIS and THAT alias R0 to R4; SCREEN is 16384 and KBD 24576. */
  lemma {:induction false} PredefinedNamed()
    ensures && Predefined["SP"] == 0 && Predefined["LCL"] == 1 && Predefined["ARG"] == 2
            && Predefined["THIS"] == 3 && Predefined["THAT"] == 4
            && Predefined["SCREEN"] == 16384 && Predefined["KBD"] == 24576
  {
  }

  /** The word emitted for a symbol whose address is not known yet. */
  const Placeholder: string := "replace"

  /**
   * A bound on the source lines under which neither current_line nor
   * current_ram (from 16, one per variable) passes 65535.
   */
  const MaxLines: nat := 65519

  /** The driver's state during the scan: symbol_table, to_fill and generated_binary. */
  datatype ScanState = ScanState(table: map<string, u16>, toFill: map<string, seq<nat>>, out: seq<string>)

  const Initial: ScanState := ScanState(Predefined, map[], [])

  /** The word of a C-instruction: "111", then the comp, dest and jump codes. */
  function ComputeWord(instr: string): (w: string)
    ensures |w| >= 3 && w[..3] == "111"
  {
    "111" + Code.Comp(CompField(instr)) + Code.Dest(DestField(instr)) + Code.Jump(JumpField(instr))
  }

  /** The word is sixteen binary digits exactly when each of its three fields has a code. */
  lemma {:induction false} ComputeWordBits(instr: string)
    ensures var w := ComputeWord(instr);
            |w| == 16 && IsBits(w) <==>
              && Code.Comp(CompField(instr)) != "error"
              && Code.Dest(DestField(instr)) != "error"
              && Code.Jump(JumpField(instr)) != "error"
  {
    WordBits(Code.Comp(CompField(instr)), Code.Dest(DestField(instr)), Code.Jump(JumpField(instr)));
  }

  /**
   * "111" followed by three codes is a 16-bit word exactly when none of the
   * codes is "error".
   */
  lemma {:induction false} WordBits(comp: string, dest: string, jump: string)
    requires comp == "error" || (|comp| == 7 && IsBits(comp))
    requires dest == "error" || (|dest| == 3 && IsBits(dest))
    requires jump == "error" || (|jump| == 3 && IsBits(jump))
    ensures var w := "111" + comp + dest + jump;
            && |w| >= 3 && w[..3] == "111"
            && (|w| == 16 && IsBits(w) <==> comp != "error" && dest != "error" && jump != "error")
  {
    var w := "111" + comp + dest + jump;
    assert w[..3] == "111";
    if comp == "error" {
      assert !IsBit(w[3]);
    } else if dest == "error" {
      assert !IsBit(w[10]);
    } else if jump == "error" {
      assert !IsBit(w[13]);
    } else {
      forall i | 0 <= i < |w| ensures IsBit(w[i]) {
        if i < 3 {
        } else if i < 10 {
          assert w[i] == comp[i - 3];
        } else if i < 13 {
          assert w[i] == dest[i - 10];
        } else {
          assert w[i] == jump[i - 13];
        }
      }
    }
  }

  /**
   * What the scan loop reads off the current instruction before it looks at
   * its own state: an A-instruction's symbol and, when the symbol parses as a
   * u16, its value; a C-instruction's word; a label's name.
   */
  datatype Decoded =
    | Address(symbol: string, literal: Option<u16>)
    | Compute(word: string)
    | Label(name: string)

  function Decode(instr: string): (d: Decoded)
    ensures d.Label? <==> TypeOf(instr) == LInstruction
    ensures d.Compute? <==> TypeOf(instr) == CInstruction
  {
    match TypeOf(instr)
    case AInstruction =>
      var symbol := Symbol(instr).value;
      Address(symbol, ParseU16(symbol))
    case CInstruction => Compute(ComputeWord(instr))
    case LInstruction => Label(Symbol(instr).value)
  }

  /** The decoded form of each instruction of ins. */
  function DecodeAll(ins: seq<string>): (ds: seq<Decoded>)
    ensures |ds| == |ins|
  {
    DecodeFirst(ins, |ins|)
  }

  /** The decoded forms of the first n instructions of ins. */
  function DecodeFirst(ins: seq<string>, n: nat): (ds: seq<Decoded>)
    requires n <= |ins|
    ensures |ds| == n
  {
    if n == 0 then [] else DecodeFirst(ins, n - 1) + [Decode(ins[n - 1])]
  }

  /** Each decoded form is the decoding of the instruction at the same index. */
  lemma {:induction false} DecodeAt(ins: seq<string>, i: nat)
    requires i < |ins|
    ensures DecodeAll(ins)[i] == Decode(ins[i])
  {
    DecodeFirstAt(ins, |ins|, i);
  }

  lemma {:induction false} DecodeFirstAt(ins: seq<string>, n: nat, i: nat)
    requires i < n <= |ins|
    ensures DecodeFirst(ins, n)[i] == Decode(ins[i])
  {
    if i < n - 1 {
      DecodeFirstAt(ins, n - 1, i);
    }
  }

  /** A decoded C-instruction's word is never the placeholder: it starts with '1'. */
  predicate NoPlaceholderWords(ds: seq<Decoded>) {
    forall i :: 0 <= i < |ds| && ds[i].Compute? ==> ds[i].word != Placeholder
  }

  lemma {:induction false} DecodedWords(ins: seq<string>)
    ensures NoPlaceholderWords(DecodeAll(ins))
  {
    var ds := DecodeAll(ins);
    forall i | 0 <= i < |ds| && ds[i].Compute?
      ensures ds[i].word != Placeholder
    {
      DecodeAt(ins, i);
      assert ds[i].word[0] == ComputeWord(ins[i])[..3][0];
    }
  }

  /** The number of decoded A- and C-instructions among the first m of ds: current_line once they are taken. */
  function Words(ds: seq<Decoded>, m: nat): (c: nat)
    requires m <= |ds|
    ensures c <= m
  {
    if m == 0 then 0
    else Words(ds, m - 1) + (if ds[m - 1].Label? then 0 else 1)
  }

  /** Counting the instructions or their decoded forms gives the same current_line. */
  lemma {:induction false} DecodedAddresses(ins: seq<string>, m: nat)
    requires m <= |ins|
    ensures Addresses(ins, m) == Words(DecodeAll(ins), m)
  {
    var ds := DecodeAll(ins);
    forall i | 0 <= i < |ins|
      ensures ds[i].Label? <==> TypeOf(ins[i]) == LInstruction
    {
      DecodeAt(ins, i);
    }
    SameLabels(ins, ds, m);
  }

  lemma {:induction false} SameLabels(ins: seq<string>, ds: seq<Decoded>, m: nat)
    requires m <= |ins| == |ds|
    requires forall i :: 0 <= i < |ins| ==> (ds[i].Label? <==> TypeOf(ins[i]) == LInstruction)
    ensures Addresses(ins, m) == Words(ds, m)
  {
    if m > 0 {
      SameLabels(ins, ds, m - 1);
    }
  }

  /**
   * One turn of the scan loop on the decoded current instruction d, with line
   * the scanner's current_line. The output only grows, by one word unless d
   * is a label.
   */
  function Step(st: ScanState, d: Decoded, line: nat): (r: ScanState)
    requires line < 0x1_0000
    ensures |r.out| == |st.out| + (if d.Label? then 0 else 1)
  {
    match d
    case Address(symbol, literal) =>
      (match literal
       case Some(n) => st.(out := st.out + [ToBin16(n)])
       case None =>
         if symbol in st.table then st.(out := st.out + [ToBin16(st.table[symbol])])
         else
           st.(toFill := st.toFill[symbol := Uses(st.toFill, symbol) + [line]],
               out := st.out + [Placeholder]))
    case Compute(word) => st.(out := st.out + [word])
    case Label(name) => st.(table := st.table[name := line as u16])
  }

  /** A step keeps the words already emitted. */
  lemma {:induction false} StepKeepsOutput(st: ScanState, d: Decoded, line: nat)
    requires line < 0x1_0000
    ensures Step(st, d, line).out[..|st.out|] == st.out
  {
  }

  /** to_fill.entry(symbol).or_default(): the positions recorded for symbol so far. */
  function Uses(toFill: map<string, seq<nat>>, symbol: string): seq<nat> {
    if symbol in toFill then toFill[symbol] else []
  }

  /**
   * The state after the scan loop has processed, once each, the first m of
   * the decoded instructions ds, each with current_line as it stands once
   * that instruction is taken.
   */
  function ScanUpTo(ds: seq<Decoded>, m: nat): (st: ScanState)
    requires m <= |ds| < 0x1_0000
    ensures |st.out| == Words(ds, m)
  {
    if m == 0 then Initial
    else Step(ScanUpTo(ds, m - 1), ds[m - 1], Words(ds, m))
  }

  /** The scan of the first m + 1 instructions is one step after the scan of the first m. */
  lemma {:induction false} ScanUpToStep(ds: seq<Decoded>, m: nat)
    requires m < |ds| < 0x1_0000
    ensures ScanUpTo(ds, m + 1) == Step(ScanUpTo(ds, m), ds[m], Words(ds, m + 1))
  {
  }

  /**
   * The source ends in a skipped line after at least one instruction: the
   * last advance then changes nothing, and the scan loop runs once more on
   * the instruction it already processed.
   */
  predicate RepeatsLast(lines: seq<string>) {
    |lines| > 0 && Skipped(lines[|lines| - 1]) && Instructions(lines) != []
  }

  /** The state when the scan loop of generate_binary ends. */
  function Assembly(lines: seq<string>): ScanState
    requires |lines| < 0x1_0000
  {
    var ds := DecodeAll(Instructions(lines));
    var st := ScanUpTo(ds, |ds|);
    if RepeatsLast(lines) then Step(st, ds[|ds| - 1], Words(ds, |ds|)) else st
  }

  /** Every recorded position is the 1-based index of a placeholder in the output. */
  ghost predicate PositionsValid(st: ScanState) {
    forall s, p :: s in st.toFill && p in st.toFill[s] ==>
      1 <= p <= |st.out| && st.out[p - 1] == Placeholder
  }

  /** No position is recorded for two symbols. */
  ghost predicate PositionsDisjoint(toFill: map<string, seq<nat>>) {
    forall s, t, p :: s in toFill && t in toFill && p in toFill[s] && p in toFill[t] ==> s == t
  }

  ghost predicate Recorded(toFill: map<string, seq<nat>>, p: nat) {
    exists s :: s in toFill && p in toFill[s]
  }

  /** Every placeholder among the first n words has its position recorded. */
  ghost predicate PlaceholdersRecorded(st: ScanState, n: nat)
    requires n <= |st.out|
  {
    forall i :: 0 <= i < n && st.out[i] == Placeholder ==> Recorded(st.toFill, i + 1)
  }

  ghost predicate WellFormed(st: ScanState) {
    PositionsValid(st) && PositionsDisjoint(st.toFill) && PlaceholdersRecorded(st, |st.out|)
  }

  /** Emitting a finished word keeps the recorded positions consistent. */
  lemma {:induction false} AppendWordWellFormed(st: ScanState, w: string)
    requires WellFormed(st) && w != Placeholder
    ensures WellFormed(st.(out := st.out + [w]))
  {
    var r := st.(out := st.out + [w]);
    forall i | 0 <= i < |r.out| && r.out[i] == Placeholder
      ensures Recorded(r.toFill, i + 1)
    {
      assert st.out[i] == Placeholder;
    }
  }

  /** Emitting a placeholder and recording its position keeps them consistent. */
  lemma {:induction false} AppendUseWellFormed(st: ScanState, symbol: string, line: nat)
    requires WellFormed(st) && line == |st.out| + 1
    ensures var r := st.(toFill := st.toFill[symbol := Uses(st.toFill, symbol) + [line]],
                         out := st.out + [Placeholder]);
            WellFormed(r) && |r.toFill| <= |st.toFill| + 1
  {
    var uses := Uses(st.toFill, symbol);
    var r := st.(toFill := st.toFill[symbol := uses + [line]], out := st.out + [Placeholder]);
    forall s, p | s in r.toFill && p in r.toFill[s]
      ensures 1 <= p <= |r.out| && r.out[p - 1] == Placeholder
    {
      if s != symbol || p in uses {
        assert p in st.toFill[s];
      }
    }
    forall s, t, p | s in r.toFill && t in r.toFill && p in r.toFill[s] && p in r.toFill[t]
      ensures s == t
    {
      if p != line {
        if s == symbol { assert p in uses; }
        if t == symbol { assert p in uses; }
        assert p in st.toFill[s] && p in st.toFill[t];
      }
    }
    forall i | 0 <= i < |r.out| && r.out[i] == Placeholder
      ensures Recorded(r.toFill, i + 1)
    {
      if i == |st.out| {
        assert line in r.toFill[symbol];
      } else {
        assert st.out[i] == Placeholder;
        var s :| s in st.toFill && i + 1 in st.toFill[s];
        assert i + 1 in r.toFill[s];
      }
    }
  }

  /** A scan step keeps the recorded positions consistent with the output. */
  lemma {:induction false} StepWellFormed(st: ScanState, d: Decoded, line: nat)
    requires line < 0x1_0000 && WellFormed(st)
    requires d.Compute? ==> d.word != Placeholder
    requires line == |st.out| + (if d.Label? then 0 else 1)
    ensures WellFormed(Step(st, d, line))
    ensures |Step(st, d, line).toFill| <= |st.toFill| + 1
  {
    match d
    case Address(symbol, literal) =>
      if literal.Some? {
        AppendWordWellFormed(st, ToBin16(literal.value));
      } else if symbol in st.table {
        AppendWordWellFormed(st, ToBin16(st.table[symbol]));
      } else {
        AppendUseWellFormed(st, symbol, line);
      }
    case Compute(word) =>
      AppendWordWellFormed(st, word);
    case Label(_) =>
  }

  /** The scan leaves every placeholder recorded, each position for one symbol. */
  lemma {:induction false} ScanWellFormed(ds: seq<Decoded>, m: nat)
    requires m <= |ds| < 0x1_0000 && NoPlaceholderWords(ds)
    ensures WellFormed(ScanUpTo(ds, m))
    ensures |ScanUpTo(ds, m).toFill| <= m
  {
    if m > 0 {
      ScanWellFormed(ds, m - 1);
      StepWellFormed(ScanUpTo(ds, m - 1), ds[m - 1], Words(ds, m));
    }
  }

  /** Every placeholder but the one at index k has its position recorded. */
  ghost predicate RecordedExcept(st: ScanState, k: int) {
    forall i :: 0 <= i < |st.out| && st.out[i] == Placeholder && i != k ==> Recorded(st.toFill, i + 1)
  }

  /** Recording a position already recorded for the same symbol changes no set of positions. */
  lemma {:induction false} RepeatUse(st: ScanState, symbol: string, c: nat)
    requires WellFormed(st) && symbol in st.toFill && c in st.toFill[symbol] && c == |st.out|
    ensures var r := st.(toFill := st.toFill[symbol := st.toFill[symbol] + [c]],
                         out := st.out + [Placeholder]);
            PositionsValid(r) && PositionsDisjoint(r.toFill) && RecordedExcept(r, |st.out|)
  {
    var r := st.(toFill := st.toFill[symbol := st.toFill[symbol] + [c]], out := st.out + [Placeholder]);
    assert forall s, p :: s in r.toFill && p in r.toFill[s] ==> p in st.toFill[s];
    forall i | 0 <= i < |r.out| && r.out[i] == Placeholder && i != |st.out|
      ensures Recorded(r.toFill, i + 1)
    {
      assert st.out[i] == Placeholder;
      var s :| s in st.toFill && i + 1 in st.toFill[s];
      assert i + 1 in r.toFill[s];
    }
  }

  /** Binding a key to the value it already has changes nothing. */
  lemma {:induction false} UpdateSame<K, V>(m: map<K, V>, k: K)
    requires k in m
    ensures m[k := m[k]] == m
  {
  }

  /**
   * r keeps the table and the recorded symbols of st, and every placeholder
   * but the one at index |st.out| is recorded.
   */
  ghost predicate RepeatKeeps(st: ScanState, r: ScanState) {
    && PositionsValid(r) && PositionsDisjoint(r.toFill) && RecordedExcept(r, |st.out|)
    && r.table == st.table && r.toFill.Keys == st.toFill.Keys
  }

  /** The step on d with count line has left its trace in st: the use of an unknown symbol, the address of a label. */
  ghost predicate StepTrace(st: ScanState, d: Decoded, line: nat) {
    && (d.Address? && d.literal.None? && d.symbol !in st.table ==>
          d.symbol in st.toFill && line in st.toFill[d.symbol])
    && (d.Label? ==> d.name in st.table && st.table[d.name] as int == line)
  }

  /**
   * Running a step again on a state it produced, with the same count, changes
   * neither the table nor the recorded symbols, and leaves at most one
   * placeholder unrecorded: the word it appends.
   */
  lemma {:induction false} RepeatOnState(st: ScanState, d: Decoded, line: nat)
    requires RepeatReady(st, d, line)
    ensures RepeatKeeps(st, Step(st, d, line))
  {
    match d
    case Address(symbol, literal) =>
      if literal.Some? {
        AppendWordWellFormed(st, ToBin16(literal.value));
      } else if symbol in st.table {
        AppendWordWellFormed(st, ToBin16(st.table[symbol]));
      } else {
        RepeatUse(st, symbol, line);
      }
    case Compute(word) =>
      AppendWordWellFormed(st, word);
    case Label(name) =>
      UpdateSame(st.table, name);
  }

  /** A well-formed state that the step on d with count line has just left behind. */
  ghost predicate RepeatReady(st: ScanState, d: Decoded, line: nat) {
    && line < 0x1_0000 && line == |st.out| && WellFormed(st)
    && (d.Compute? ==> d.word != Placeholder)
    && StepTrace(st, d, line)
  }

  /** The step on ds[k] leaves its trace in the scan of the first k + 1 instructions. */
  lemma {:induction false} StepRecorded(ds: seq<Decoded>, k: nat)
    requires k < |ds| < 0x1_0000
    ensures StepTrace(ScanUpTo(ds, k + 1), ds[k], Words(ds, k + 1))
  {
    ScanUpToStep(ds, k);
  }

  /** The scan of the first k + 1 instructions is ready for the step on ds[k] to run again. */
  lemma {:induction false} ScanRepeatReady(ds: seq<Decoded>, k: nat)
    requires k < |ds| < 0x1_0000 && NoPlaceholderWords(ds)
    ensures RepeatReady(ScanUpTo(ds, k + 1), ds[k], Words(ds, k + 1))
  {
    ScanWellFormed(ds, k + 1);
    StepRecorded(ds, k);
  }

  /** Running the step again on ds[k], with the same current_line, is such a repeat. */
  lemma {:induction false} RepeatStep(ds: seq<Decoded>, k: nat)
    requires k < |ds| < 0x1_0000 && NoPlaceholderWords(ds)
    ensures RepeatKeeps(ScanUpTo(ds, k + 1), Step(ScanUpTo(ds, k + 1), ds[k], Words(ds, k + 1)))
  {
    ScanRepeatReady(ds, k);
    RepeatOnState(ScanUpTo(ds, k + 1), ds[k], Words(ds, k + 1));
  }

  /**
   * Running the same step twice with the same count: a label is bound to the
   * same address again, and any other instruction emits its word a second
   * time.
   */
  lemma {:induction false} StepTwice(st: ScanState, d: Decoded, line: nat)
    requires line < 0x1_0000
    ensures var once := Step(st, d, line);
            && (d.Label? ==> Step(once, d, line) == once)
            && (!d.Label? ==> |once.out| > 0 && Step(once, d, line).out == once.out + [once.out[|once.out| - 1]])
  {
    if d.Label? {
      UpdateSame(Step(st, d, line).table, d.name);
    }
  }

  /**
   * A source that ends in skipped lines after its last instruction gets that
   * instruction's word twice at the end of its output, or nothing more when
   * it is a label.
   */
  lemma {:induction false} RepeatDuplicatesWord(lines: seq<string>)
    requires |lines| < 0x1_0000 && RepeatsLast(lines)
    ensures var ds := DecodeAll(Instructions(lines));
            var st := ScanUpTo(ds, |ds|);
            && (ds[|ds| - 1].Label? ==> Assembly(lines) == st)
            && (!ds[|ds| - 1].Label? ==> |st.out| > 0 && Assembly(lines).out == st.out + [st.out[|st.out| - 1]])
  {
    var ds := DecodeAll(Instructions(lines));
    ScanUpToStep(ds, |ds| - 1);
    StepTwice(ScanUpTo(ds, |ds| - 1), ds[|ds| - 1], Words(ds, |ds|));
  }

  /**
   * generate_binary emits one word per A- or C-instruction, plus one more
   * when a repeated last turn runs on an A- or C-instruction.
   */
  lemma {:induction false} AssemblyLength(lines: seq<string>)
    requires |lines| < 0x1_0000
    ensures var ds := DecodeAll(Instructions(lines));
            |Assembly(lines).out| == Words(ds, |ds|) + (if RepeatsLast(lines) && !ds[|ds| - 1].Label? then 1 else 0)
  {
    if RepeatsLast(lines) {
      RepeatDuplicatesWord(lines);
    }
  }

  /** The scan loop's final state keeps every placeholder recorded, except one left by a repeat. */
  lemma {:induction false} AssemblyWellFormed(lines: seq<string>)
    requires |lines| < 0x1_0000
    ensures var st := Assembly(lines);
            && PositionsValid(st) && PositionsDisjoint(st.toFill)
            && |st.toFill| <= |lines|
            && RecordedExcept(st, if RepeatsLast(lines) then |st.out| - 1 else -1)
  {
    var ins := Instructions(lines);
    var ds := DecodeAll(ins);
    DecodedWords(ins);
    ScanWellFormed(ds, |ds|);
    var st := ScanUpTo(ds, |ds|);
    if RepeatsLast(lines) {
      RepeatStep(ds, |ds| - 1);
      assert Assembly(lines) == Step(st, ds[|ds| - 1], Words(ds, |ds|));
    } else {
      assert Assembly(lines) == st;
    }
  }

  /** The index of the last of the first m decoded instructions that declares the label x, or -1 when none does. */
  function LastLabel(ds: seq<Decoded>, m: nat, x: string): (k: int)
    requires m <= |ds|
    ensures -1 <= k < m
    ensures k >= 0 ==> ds[k] == Label(x)
    ensures forall j :: k < j < m ==> ds[j] != Label(x)
  {
    if m == 0 then -1
    else if ds[m - 1] == Label(x) then m - 1
    else LastLabel(ds, m - 1, x)
  }

  /**
   * The symbol table after the scan of the first m decoded instructions: a
   * label is bound to the number of A- and C-instructions before its last
   * declaration, which overrides a predefined symbol of the same name; every
   * other predefined symbol keeps its value; nothing else is in the table.
   */
  lemma {:induction false} ScanTable(ds: seq<Decoded>, m: nat, x: string)
    requires m <= |ds| < 0x1_0000
    ensures x in ScanUpTo(ds, m).table <==> x in Predefined || LastLabel(ds, m, x) >= 0
    ensures LastLabel(ds, m, x) >= 0 ==>
              ScanUpTo(ds, m).table[x] as int == Words(ds, LastLabel(ds, m, x))
    ensures x in Predefined && LastLabel(ds, m, x) < 0 ==> ScanUpTo(ds, m).table[x] == Predefined[x]
  {
    ScanTableDomain(ds, m, x);
    ScanTableLabel(ds, m, x);
    ScanTablePredefined(ds, m, x);
  }

  /** Only predefined symbols and declared labels are in the table. */
  lemma {:induction false} ScanTableDomain(ds: seq<Decoded>, m: nat, x: string)
    requires m <= |ds| < 0x1_0000
    ensures x in ScanUpTo(ds, m).table ==> x in Predefined || LastLabel(ds, m, x) >= 0
  {
    if m > 0 {
      ScanTableDomain(ds, m - 1, x);
    }
  }

  /** A declared label is bound to the count of A- and C-instructions before its last declaration. */
  lemma {:induction false} ScanTableLabel(ds: seq<Decoded>, m: nat, x: string)
    requires m <= |ds| < 0x1_0000
    ensures LastLabel(ds, m, x) >= 0 ==>
              x in ScanUpTo(ds, m).table
              && ScanUpTo(ds, m).table[x] as int == Words(ds, LastLabel(ds, m, x))
  {
    if m > 0 {
      ScanTableLabel(ds, m - 1, x);
    }
  }

  /** A predefined symbol never declared as a label keeps its predefined address. */
  lemma {:induction false} ScanTablePredefined(ds: seq<Decoded>, m: nat, x: string)
    requires m <= |ds| < 0x1_0000
    ensures x in Predefined && LastLabel(ds, m, x) < 0 ==>
              x in ScanUpTo(ds, m).table && ScanUpTo(ds, m).table[x] == Predefined[x]
  {
    if m > 0 {
      ScanTablePredefined(ds, m - 1, x);
    }
  }

  /** The repeated last step leaves the symbol table as the scan left it. */
  lemma {:induction false} AssemblyTable(lines: seq<string>)
    requires |lines| < 0x1_0000
    ensures var ds := DecodeAll(Instructions(lines));
            Assembly(lines).table == ScanUpTo(ds, |ds|).table
  {
    var ds := DecodeAll(Instructions(lines));
    if RepeatsLast(lines) {
      DecodedWords(Instructions(lines));
      RepeatStep(ds, |ds| - 1);
    }
  }

  /**
   * The state of the scan loop once advance has consumed the first n lines.
   * Each line advance takes runs a step on its instruction with the count
   * so far. When the source ends in skipped lines after some instruction,
   * the last turn of the loop consumes them and runs the step again on the
   * instruction it already processed.
   */
  function ScanLines(lines: seq<string>, n: nat): ScanState
    requires n <= |lines| < 0x1_0000
  {
    if n == 0 then Initial
    else if Skipped(lines[n - 1]) && (n < |lines| || Current(lines, n).None?) then ScanLines(lines, n - 1)
    else Step(ScanLines(lines, n - 1), Decode(Current(lines, n).value), Counted(lines, n))
  }

  /** A line advance takes, or the end of the source after one, runs a step on the current instruction. */
  lemma {:induction false} ScanLinesStep(lines: seq<string>, n: nat)
    requires 0 < n <= |lines| < 0x1_0000
    requires !Skipped(lines[n - 1]) || (n == |lines| && Current(lines, n).Some?)
    ensures Current(lines, n).Some?
    ensures ScanLines(lines, n) == Step(ScanLines(lines, n - 1), Decode(Current(lines, n).value), Counted(lines, n))
  {
    if !Skipped(lines[n - 1]) {
      assert LastTaken(lines, n) == n - 1;
    }
  }

  /** Skipped lines before the end of the source leave the state as it was. */
  lemma {:induction false} ScanSkips(lines: seq<string>, lo: nat, hi: nat)
    requires lo <= hi < |lines| < 0x1_0000
    requires forall j :: lo <= j < hi ==> Skipped(lines[j])
    ensures ScanLines(lines, hi) == ScanLines(lines, lo)
    decreases hi
  {
    if lo < hi {
      ScanSkips(lines, lo, hi - 1);
      assert ScanLines(lines, hi) == ScanLines(lines, hi - 1);
    }
  }

  /**
   * One turn of the scan loop from p0: advance consumes the lines up to
   * NextTaken(lines, p0), and processing the current instruction with
   * current_line then gives the state there.
   */
  lemma {:induction false} ScanTurn(lines: seq<string>, p0: nat)
    requires p0 < |lines| < 0x1_0000
    requires Current(lines, |lines|).Some?
    ensures Current(lines, NextTaken(lines, p0)).Some?
    ensures ScanLines(lines, NextTaken(lines, p0)) ==
              Step(ScanLines(lines, p0), Decode(Current(lines, NextTaken(lines, p0)).value),
                   Counted(lines, NextTaken(lines, p0)))
  {
    var p1 := NextTaken(lines, p0);
    NextTakenSkips(lines, p0);
    ScanSkips(lines, p0, p1 - 1);
    ScanLinesStep(lines, p1);
  }

  /**
   * Short of a repeated last turn, the state is the scan of the decoded
   * instructions taken so far.
   */
  lemma {:induction false} ScanLinesTaken(lines: seq<string>, n: nat)
    requires n <= |lines| < 0x1_0000
    requires n == |lines| && n > 0 && Skipped(lines[n - 1]) ==> Current(lines, n).None?
    ensures |Taken(lines, n)| <= |Instructions(lines)|
    ensures ScanLines(lines, n) == ScanUpTo(DecodeAll(Instructions(lines)), |Taken(lines, n)|)
  {
    TakenPrefix(lines, n, |lines|);
    if n > 0 {
      ScanLinesTaken(lines, n - 1);
      if Skipped(lines[n - 1]) {
        assert Taken(lines, n) == Taken(lines, n - 1);
        assert ScanLines(lines, n) == ScanLines(lines, n - 1);
      } else {
        assert |Taken(lines, n - 1)| <= |Instructions(lines)|;
        assert ScanLines(lines, n - 1) == ScanUpTo(DecodeAll(Instructions(lines)), |Taken(lines, n - 1)|);
        ScanLinesTake(lines, n);
      }
    }
  }

  /** A line advance takes extends the scan of the instructions taken by one step. */
  lemma {:induction false} ScanLinesTake(lines: seq<string>, n: nat)
    requires 0 < n <= |lines| < 0x1_0000 && !Skipped(lines[n - 1])
    requires |Taken(lines, n - 1)| <= |Instructions(lines)|
    requires ScanLines(lines, n - 1) == ScanUpTo(DecodeAll(Instructions(lines)), |Taken(lines, n - 1)|)
    ensures |Taken(lines, n)| <= |Instructions(lines)|
    ensures ScanLines(lines, n) == ScanUpTo(DecodeAll(Instructions(lines)), |Taken(lines, n)|)
  {
    var ds := DecodeAll(Instructions(lines));
    var m := |Taken(lines, n - 1)|;
    TakenInstruction(lines, n);
    ScanUpToStep(ds, m);
    assert ScanLines(lines, n) == Step(ScanLines(lines, n - 1), ds[m], Words(ds, m + 1));
  }

  /** The line taken is the next instruction, decoded and counted as the scan of instructions has it. */
  lemma {:induction false} TakenInstruction(lines: seq<string>, n: nat)
    requires 0 < n <= |lines| < 0x1_0000 && !Skipped(lines[n - 1])
    ensures var ds := DecodeAll(Instructions(lines));
            var m := |Taken(lines, n - 1)|;
            && |Taken(lines, n)| == m + 1 <= |ds|
            && Current(lines, n).Some? && Decode(Current(lines, n).value) == ds[m]
            && Counted(lines, n) == Words(ds, m + 1)
  {
    var ins := Instructions(lines);
    var m := |Taken(lines, n - 1)|;
    TakenNext(lines, n - 1, n);
    DecodedAddresses(ins, m + 1);
    DecodeAt(ins, m);
  }

  /** Once every line is consumed, the scan loop has reached Assembly. */
  lemma {:induction false} ScanLinesEnd(lines: seq<string>)
    requires |lines| < 0x1_0000
    ensures ScanLines(lines, |lines|) == Assembly(lines)
  {
    if RepeatsLast(lines) {
      ScanLinesRepeat(lines);
    } else {
      ScanLinesPlain(lines);
    }
  }

  /** Without a repeated last turn the loop ends with the scan of every instruction. */
  lemma {:induction false} ScanLinesPlain(lines: seq<string>)
    requires |lines| < 0x1_0000 && !RepeatsLast(lines)
    ensures ScanLines(lines, |lines|) == Assembly(lines)
  {
    var n := |lines|;
    TakenSoFar(lines, n);
    assert n > 0 && Skipped(lines[n - 1]) ==> Taken(lines, n) == [];
    ScanLinesTaken(lines, n);
    assert Assembly(lines) == ScanUpTo(DecodeAll(Instructions(lines)), |Instructions(lines)|);
  }

  /** With trailing skipped lines the loop ends by repeating the step on the last instruction. */
  lemma {:induction false} ScanLinesRepeat(lines: seq<string>)
    requires |lines| < 0x1_0000 && RepeatsLast(lines)
    ensures ScanLines(lines, |lines|) == Assembly(lines)
  {
    var ds := DecodeAll(Instructions(lines));
    var n := |lines|;
    ScanBeforeRepeat(lines);
    RepeatedInstruction(lines);
    assert ScanLines(lines, n) == Step(ScanLines(lines, n - 1), ds[|ds| - 1], Words(ds, |ds|));
  }

  /** Before the trailing skipped lines, every instruction has been scanned. */
  lemma {:induction false} ScanBeforeRepeat(lines: seq<string>)
    requires |lines| < 0x1_0000 && RepeatsLast(lines)
    ensures ScanLines(lines, |lines| - 1) == ScanUpTo(DecodeAll(Instructions(lines)), |Instructions(lines)|)
  {
    SkipLines(lines, |lines| - 1, |lines|);
    ScanLinesTaken(lines, |lines| - 1);
  }

  /** The repeated step runs on the last instruction with the final count. */
  lemma {:induction false} RepeatedInstruction(lines: seq<string>)
    requires |lines| < 0x1_0000 && RepeatsLast(lines)
    ensures var ds := DecodeAll(Instructions(lines));
            && Current(lines, |lines|).Some?
            && Decode(Current(lines, |lines|).value) == ds[|ds| - 1]
            && Counted(lines, |lines|) == Words(ds, |ds|)
  {
    var ins := Instructions(lines);
    TakenSoFar(lines, |lines|);
    assert Taken(lines, |lines|) == ins != [];
    assert Current(lines, |lines|) == Some(ins[|ins| - 1]);
    DecodedAddresses(ins, |ins|);
    DecodeAt(ins, |ins| - 1);
  }

  /** Every position recorded in toFill is a 1-based index into a sequence of n words. */
  ghost predicate PositionsInRange(toFill: map<string, seq<nat>>, n: nat) {
    forall s, p :: s in toFill && p in toFill[s] ==> 1 <= p <= n
  }

  /** Position p is recorded for one of the symbols in keys. */
  ghost predicate RecordedAmong(toFill: map<string, seq<nat>>, keys: set<string>, p: nat) {
    exists s :: s in keys && s in toFill && p in toFill[s]
  }

  /** The variables vars have distinct addresses from 16 up, as many as there are variables. */
  ghost predicate Allocated(table: map<string, u16>, vars: set<string>) {
    && (forall v :: v in vars ==> v in table && 16 <= table[v] as int < 16 + |vars|)
    && (forall v, w :: v in vars && w in vars && table[v] == table[w] ==> v == w)
  }

  /** words with word written at every 1-based position listed. */
  function Overwritten(words: seq<string>, positions: seq<nat>, word: string): (r: seq<string>)
    ensures |r| == |words|
    ensures forall i :: 0 <= i < |r| && i + 1 !in positions ==> r[i] == words[i]
    ensures forall p :: p in positions && 1 <= p <= |r| ==> r[p - 1] == word
  {
    seq(|words|, i requires 0 <= i < |words| => if i + 1 in positions then word else words[i])
  }

  /** The loops that write one word at each recorded position. */
  method Overwrite(binary: seq<string>, positions: seq<nat>, word: string) returns (r: seq<string>)
    requires forall p :: p in positions ==> 1 <= p <= |binary|
    ensures r == Overwritten(binary, positions, word)
  {
    r := binary;
    for k := 0 to |positions|
      invariant |r| == |binary|
      invariant forall i :: 0 <= i < |r| ==> r[i] == if i + 1 in positions[..k] then word else binary[i]
    {
      assert positions[..k + 1] == positions[..k] + [positions[k]];
      assert positions[k] in positions;
      r := r[positions[k] - 1 := word];
    }
    assert positions[..|positions|] == positions;
  }

  /**
   * The symbol table and deferred uses after the backfill has handled the
   * symbols in done, starting from the table known and the uses deferred:
   * the handled symbols are in the table, the positions of the handled
   * variables are emptied, and nothing known has changed.
   */
  ghost predicate TableProgress(deferred: map<string, seq<nat>>, known: map<string, u16>, done: set<string>,
                                table: map<string, u16>, fill: map<string, seq<nat>>)
  {
    && (forall s :: s in done ==> s in deferred)
    && (forall s :: s in fill <==> s in deferred)
    && (forall s :: s in fill ==> fill[s] == (if s in done && s !in known then [] else deferred[s]))
    && (forall s :: s in table <==> s in known || s in done)
    && (forall s :: s in known ==> table[s] == known[s])
  }

  /** The handled variables vars have addresses 16, 17, ... below ram. */
  ghost predicate RamProgress(known: map<string, u16>, done: set<string>, vars: set<string>,
                              table: map<string, u16>, ram: int)
  {
    && (forall s :: s in table <==> s in known || s in done)
    && (forall s :: s in vars <==> s in done && s !in known)
    && ram == 16 + |vars|
    && Allocated(table, vars)
  }

  /**
   * The words after the backfill has handled the symbols in done: each of
   * their uses holds the symbol's address, every other word is as the scan
   * left it.
   */
  ghost predicate WordsProgress(deferred: map<string, seq<nat>>, done: set<string>, table: map<string, u16>,
                                binary: seq<string>, filled: seq<string>)
  {
    && |filled| == |binary|
    && PositionsInRange(deferred, |binary|)
    && (forall s, p :: s in done && s in deferred && p in deferred[s] ==>
          s in table && filled[p - 1] == ToBin16(table[s]))
    && (forall i :: 0 <= i < |binary| && !RecordedAmong(deferred, done, i + 1) ==> filled[i] == binary[i])
  }

  /** Binding a variable to ram and emptying its positions. */
  lemma {:induction false} VariableTable(deferred: map<string, seq<nat>>, known: map<string, u16>, done: set<string>,
                      table: map<string, u16>, fill: map<string, seq<nat>>, ram: u16, symbol: string)
    requires TableProgress(deferred, known, done, table, fill)
    requires symbol in deferred && symbol !in done && symbol !in known
    ensures TableProgress(deferred, known, done + {symbol}, table[symbol := ram], fill[symbol := []])
  {
  }

  /** The variable takes the next address. */
  lemma {:induction false} VariableRam(known: map<string, u16>, done: set<string>, vars: set<string>,
                    table: map<string, u16>, ram: u16, symbol: string)
    requires RamProgress(known, done, vars, table, ram as int)
    requires symbol !in done && symbol !in known
    ensures RamProgress(known, done + {symbol}, vars + {symbol}, table[symbol := ram], ram as int + 1)
  {
    AllocateOne(table, vars, symbol, ram);
  }

  /** The next address after the allocated ones is free. */
  lemma {:induction false} AllocateOne(table: map<string, u16>, vars: set<string>, symbol: string, ram: u16)
    requires Allocated(table, vars) && symbol !in vars && ram as int == 16 + |vars|
    ensures Allocated(table[symbol := ram], vars + {symbol})
  {
    assert |vars + {symbol}| == |vars| + 1;
  }

  /** Overwriting the uses of one more symbol with its address. */
  lemma {:induction false} WordsStep(deferred: map<string, seq<nat>>, done: set<string>, table: map<string, u16>,
                  binary: seq<string>, filled: seq<string>, symbol: string,
                  table': map<string, u16>, filled': seq<string>)
    requires WordsProgress(deferred, done, table, binary, filled)
    requires PositionsDisjoint(deferred)
    requires symbol in deferred && symbol !in done && symbol in table'
    requires forall s :: s in done && s in table ==> s in table' && table'[s] == table[s]
    requires |filled'| == |filled|
    requires forall i :: 0 <= i < |filled'| ==>
               filled'[i] == if i + 1 in deferred[symbol] then ToBin16(table'[symbol]) else filled[i]
    ensures WordsProgress(deferred, done + {symbol}, table', binary, filled')
  {
    forall s, p | s in done + {symbol} && s in deferred && p in deferred[s]
      ensures s in table' && filled'[p - 1] == ToBin16(table'[s])
    {
      if s != symbol {
        assert p !in deferred[symbol];
      }
    }
    forall i | 0 <= i < |binary| && !RecordedAmong(deferred, done + {symbol}, i + 1)
      ensures filled'[i] == binary[i]
    {
      assert !RecordedAmong(deferred, done, i + 1);
      assert i + 1 !in deferred[symbol];
    }
  }

  /** The backfill's working state: symbol_table, to_fill, current_ram and generated_binary. */
  datatype Fill = Fill(table: map<string, u16>, fill: map<string, seq<nat>>, ram: int, words: seq<string>)

  /**
   * One turn of the backfill loop on a deferred symbol. A symbol absent from
   * the table is a variable: it is bound to current_ram, its uses are
   * overwritten with that address and its positions emptied, and current_ram
   * moves on. Otherwise the uses are overwritten with the symbol's address.
   */
  function BackfillStep(f: Fill, symbol: string): (r: Fill)
    requires symbol in f.fill && 0 <= f.ram
    requires symbol !in f.table ==> f.ram < 0xFFFF
    ensures symbol in r.table && r.words == Overwritten(f.words, f.fill[symbol], ToBin16(r.table[symbol]))
    ensures forall s :: s in f.table ==> s in r.table && r.table[s] == f.table[s]
    ensures forall s :: s in r.fill <==> s in f.fill
    ensures r.ram == f.ram + (if symbol in f.table then 0 else 1)
  {
    if symbol !in f.table then
      Fill(f.table[symbol := f.ram as u16], f.fill[symbol := []], f.ram + 1,
           Overwritten(f.words, f.fill[symbol], ToBin16(f.ram as u16)))
    else
      f.(words := Overwritten(f.words, f.fill[symbol], ToBin16(f.table[symbol])))
  }

  /** The backfill from start after visiting the symbols of order, in that order. */
  function Backfilled(start: Fill, order: seq<string>): (r: Fill)
    requires forall s :: s in order ==> s in start.fill
    requires 0 <= start.ram && start.ram + |order| < 0x1_0000
    ensures start.ram <= r.ram <= start.ram + |order|
    ensures forall s :: s in r.fill <==> s in start.fill
    ensures |r.words| == |start.words|
  {
    if order == [] then start
    else BackfillStep(Backfilled(start, order[..|order| - 1]), order[|order| - 1])
  }

  /** The symbols of order are pairwise distinct. */
  predicate Distinct(order: seq<string>) {
    forall i, j :: 0 <= i < j < |order| ==> order[i] != order[j]
  }

  /** order visits every symbol of deferred exactly once. */
  predicate VisitOrder(order: seq<string>, deferred: map<string, seq<nat>>) {
    Distinct(order) && (forall s :: s in order ==> s in deferred) && (forall s :: s in deferred ==> s in order)
  }

  /** The symbols of order, as a set. */
  ghost function Visited(order: seq<string>): set<string> {
    set s | s in order
  }

  lemma {:induction false} VisitedStep(order: seq<string>)
    requires order != []
    ensures Visited(order) == Visited(order[..|order| - 1]) + {order[|order| - 1]}
  {
    var front := order[..|order| - 1];
    forall s | s in order ensures s in front || s == order[|order| - 1] {
      var i :| 0 <= i < |order| && order[i] == s;
      if i < |order| - 1 { assert front[i] == s; }
    }
  }

  /** Whatever the visiting order, the table and positions evolve as TableProgress says. */
  lemma {:induction false} BackfilledTable(deferred: map<string, seq<nat>>, known: map<string, u16>,
                                           binary: seq<string>, order: seq<string>)
    requires Distinct(order) && (forall s :: s in order ==> s in deferred) && 16 + |order| < 0x1_0000
    ensures var f := Backfilled(Fill(known, deferred, 16, binary), order);
            TableProgress(deferred, known, Visited(order), f.table, f.fill)
  {
    if order != [] {
      var front := order[..|order| - 1];
      var symbol := order[|order| - 1];
      assert Distinct(front);
      BackfilledTable(deferred, known, binary, front);
      VisitedStep(order);
      var f := Backfilled(Fill(known, deferred, 16, binary), front);
      assert symbol !in Visited(front);
      if symbol !in known {
        VariableTable(deferred, known, Visited(front), f.table, f.fill, f.ram as u16, symbol);
      }
    }
  }

  /** A label is already bound: handling it allocates nothing. */
  lemma {:induction false} LabelRam(known: map<string, u16>, done: set<string>, vars: set<string>,
                 table: map<string, u16>, ram: int, symbol: string)
    requires RamProgress(known, done, vars, table, ram) && symbol in known
    ensures RamProgress(known, done + {symbol}, vars, table, ram)
  {
  }

  lemma {:induction false} AddVariable(done: set<string>, known: set<string>, symbol: string)
    ensures symbol !in known ==> (done + {symbol}) - known == (done - known) + {symbol}
    ensures symbol in known ==> (done + {symbol}) - known == done - known
  {
  }

  /** One turn of the backfill loop allocates at most the next address. */
  lemma {:induction false} RamStep(known: map<string, u16>, done: set<string>, f: Fill, symbol: string)
    requires RamProgress(known, done, done - known.Keys, f.table, f.ram)
    requires symbol in f.fill && symbol !in done && 0 <= f.ram < 0xFFFF
    ensures var g := BackfillStep(f, symbol);
            RamProgress(known, done + {symbol}, (done + {symbol}) - known.Keys, g.table, g.ram)
  {
    AddVariable(done, known.Keys, symbol);
    var g := BackfillStep(f, symbol);
    if symbol !in known {
      assert g.table == f.table[symbol := f.ram as u16] && g.ram == f.ram + 1;
      VariableRam(known, done, done - known.Keys, f.table, f.ram as u16, symbol);
    } else {
      assert g.table == f.table && g.ram == f.ram;
      LabelRam(known, done, done - known.Keys, f.table, f.ram, symbol);
    }
  }

  /** Whatever the visiting order, the variables get addresses as RamProgress says. */
  lemma {:induction false} BackfilledRam(deferred: map<string, seq<nat>>, known: map<string, u16>,
                                         binary: seq<string>, order: seq<string>)
    requires Distinct(order) && (forall s :: s in order ==> s in deferred) && 16 + |order| < 0x1_0000
    ensures var f := Backfilled(Fill(known, deferred, 16, binary), order);
            RamProgress(known, Visited(order), Visited(order) - known.Keys, f.table, f.ram)
  {
    if order == [] {
      assert Visited(order) - known.Keys == {};
    } else {
      var front := order[..|order| - 1];
      assert Distinct(front);
      BackfilledRam(deferred, known, binary, front);
      VisitedStep(order);
      RamStep(known, Visited(front), Backfilled(Fill(known, deferred, 16, binary), front), order[|order| - 1]);
    }
  }

  /** A symbol not yet in order keeps order + [symbol] distinct. */
  lemma {:induction false} DistinctAppend(order: seq<string>, symbol: string)
    requires Distinct(order) && symbol !in order
    ensures Distinct(order + [symbol])
  {
  }

  /** Visiting one more symbol is one more turn of the backfill loop. */
  lemma {:induction false} BackfilledNext(start: Fill, order: seq<string>, symbol: string)
    requires forall s :: s in order ==> s in start.fill
    requires symbol in start.fill
    requires 0 <= start.ram && start.ram + |order| + 1 < 0x1_0000
    ensures Backfilled(start, order + [symbol]) == BackfillStep(Backfilled(start, order), symbol)
  {
    assert (order + [symbol])[..|order|] == order;
  }

  /** A symbol not yet visited still has its deferred positions. */
  lemma {:induction false} BackfilledFill(deferred: map<string, seq<nat>>, known: map<string, u16>,
                                          binary: seq<string>, order: seq<string>, symbol: string)
    requires (forall s :: s in order ==> s in deferred) && 16 + |order| < 0x1_0000
    requires symbol in deferred && symbol !in order
    ensures var f := Backfilled(Fill(known, deferred, 16, binary), order);
            symbol in f.fill && f.fill[symbol] == deferred[symbol]
  {
    if order != [] {
      BackfilledFill(deferred, known, binary, order[..|order| - 1], symbol);
    }
  }

  /** Whatever the visiting order, the words evolve as WordsProgress says. */
  lemma {:induction false} BackfilledWords(deferred: map<string, seq<nat>>, known: map<string, u16>,
                                           binary: seq<string>, order: seq<string>)
    requires PositionsInRange(deferred, |binary|) && PositionsDisjoint(deferred)
    requires Distinct(order) && (forall s :: s in order ==> s in deferred) && 16 + |order| < 0x1_0000
    ensures var f := Backfilled(Fill(known, deferred, 16, binary), order);
            WordsProgress(deferred, Visited(order), f.table, binary, f.words)
  {
    if order == [] {
      assert Visited(order) == {};
    } else {
      var front := order[..|order| - 1];
      var symbol := order[|order| - 1];
      assert Distinct(front);
      assert symbol !in front;
      BackfilledWords(deferred, known, binary, front);
      BackfilledFill(deferred, known, binary, front, symbol);
      VisitedStep(order);
      var f := Backfilled(Fill(known, deferred, 16, binary), front);
      var g := BackfillStep(f, symbol);
      WordsStep(deferred, Visited(front), f.table, binary, f.words, symbol, g.table, g.words);
    }
  }

  /**
   * The symbol table and positions once every deferred symbol is visited,
   * whatever the order: every deferred symbol is in the table, the known
   * ones unchanged, and only the variables' positions are emptied.
   */
  lemma {:induction false} TableOutcome(deferred: map<string, seq<nat>>, known: map<string, u16>,
                     binary: seq<string>, order: seq<string>)
    requires VisitOrder(order, deferred) && 16 + |order| < 0x1_0000
    ensures var f := Backfilled(Fill(known, deferred, 16, binary), order);
            && (forall s :: s in f.fill <==> s in deferred)
            && (forall s :: s in f.fill ==> f.fill[s] == (if s in known then deferred[s] else []))
            && (forall s :: s in f.table <==> s in known || s in deferred)
            && (forall s :: s in known ==> f.table[s] == known[s])
  {
    BackfilledTable(deferred, known, binary, order);
    assert Visited(order) == deferred.Keys;
  }

  /** Once every deferred symbol is visited, the variables hold 16, 17, ... one each. */
  lemma {:induction false} RamOutcome(deferred: map<string, seq<nat>>, known: map<string, u16>,
                   binary: seq<string>, order: seq<string>)
    requires VisitOrder(order, deferred) && 16 + |order| < 0x1_0000
    ensures Allocated(Backfilled(Fill(known, deferred, 16, binary), order).table, deferred.Keys - known.Keys)
  {
    BackfilledRam(deferred, known, binary, order);
    assert Visited(order) == deferred.Keys;
  }

  /**
   * Once every deferred symbol is visited, every recorded use holds its
   * symbol's address and every other word is unchanged.
   */
  lemma {:induction false} WordsOutcome(deferred: map<string, seq<nat>>, known: map<string, u16>,
                     binary: seq<string>, order: seq<string>)
    requires PositionsInRange(deferred, |binary|) && PositionsDisjoint(deferred)
    requires VisitOrder(order, deferred) && 16 + |order| < 0x1_0000
    ensures var f := Backfilled(Fill(known, deferred, 16, binary), order);
            && |f.words| == |binary|
            && (forall s, p :: s in deferred && p in deferred[s] ==>
                  s in f.table && f.words[p - 1] == ToBin16(f.table[s]))
            && (forall i :: 0 <= i < |binary| && !Recorded(deferred, i + 1) ==> f.words[i] == binary[i])
  {
    BackfilledWords(deferred, known, binary, order);
    assert Visited(order) == deferred.Keys;
    var f := Backfilled(Fill(known, deferred, 16, binary), order);
    forall i | 0 <= i < |binary| && !Recorded(deferred, i + 1) ensures f.words[i] == binary[i] {
      assert !RecordedAmong(deferred, deferred.Keys, i + 1);
    }
  }

  /**
   * The finished symbol table and words, given the scan state st whose
   * placeholders are all recorded except perhaps the one at index k: every
   * symbol known to the scan keeps its address, the deferred ones that were
   * unknown get 16, 17, ... one each, every recorded use holds its symbol's
   * address, every other word is kept, and no placeholder is left but
   * possibly the one at k.
   */
  ghost predicate Outcome(st: ScanState, k: int, table: map<string, u16>, words: seq<string>) {
    && |words| == |st.out|
    && (forall s :: s in table <==> s in st.table || s in st.toFill)
    && (forall s :: s in st.table ==> table[s] == st.table[s])
    && Allocated(table, st.toFill.Keys - st.table.Keys)
    && (forall s, p :: s in st.toFill && p in st.toFill[s] ==> 1 <= p <= |words| && words[p - 1] == ToBin16(table[s]))
    && (forall i :: 0 <= i < |st.out| && st.out[i] != Placeholder ==> words[i] == st.out[i])
    && (forall i :: 0 <= i < |words| && i != k ==> words[i] != Placeholder)
  }

  /** The backfill reaches Outcome in every visiting order. */
  lemma {:induction false} FillOutcome(st: ScanState, k: int, order: seq<string>)
    requires PositionsValid(st) && PositionsDisjoint(st.toFill) && RecordedExcept(st, k)
    requires VisitOrder(order, st.toFill) && 16 + |order| < 0x1_0000
    ensures var f := Backfilled(Fill(st.table, st.toFill, 16, st.out), order);
            Outcome(st, k, f.table, f.words)
  {
    var f := Backfilled(Fill(st.table, st.toFill, 16, st.out), order);
    TableOutcome(st.toFill, st.table, st.out, order);
    RamOutcome(st.toFill, st.table, st.out, order);
    WordsOutcome(st.toFill, st.table, st.out, order);
    forall i | 0 <= i < |st.out| && st.out[i] != Placeholder
      ensures f.words[i] == st.out[i]
    {
      assert !Recorded(st.toFill, i + 1);
    }
    forall i | 0 <= i < |f.words| && i != k
      ensures f.words[i] != Placeholder
    {
      if st.out[i] == Placeholder {
        var s :| s in st.toFill && i + 1 in st.toFill[s];
        assert |f.words[i]| == 16;
      }
    }
  }

  /** The index of the placeholder a repeated last turn may leave behind, or -1 when the loop does not repeat. */
  function RepeatIndex(lines: seq<string>): int
    requires |lines| < 0x1_0000
  {
    if RepeatsLast(lines) then |Assembly(lines).out| - 1 else -1
  }

  /**
   * generate_binary, whatever order the deferred symbols come in: the
   * outcome of the backfill from the state the scan loop ends in.
   */
  lemma {:induction false} AssemblyOutcome(lines: seq<string>, order: seq<string>)
    requires |lines| <= MaxLines
    requires VisitOrder(order, Assembly(lines).toFill) && 16 + |order| < 0x1_0000
    ensures var st := Assembly(lines);
            var f := Backfilled(Fill(st.table, st.toFill, 16, st.out), order);
            Outcome(st, RepeatIndex(lines), f.table, f.words)
  {
    AssemblyWellFormed(lines);
    FillOutcome(Assembly(lines), RepeatIndex(lines), order);
  }

  /** r keeps the words of st as a prefix and every position st records. */
  ghost predicate Extends(st: ScanState, r: ScanState) {
    && |st.out| <= |r.out| && r.out[..|st.out|] == st.out
    && (forall s, p :: s in st.toFill && p in st.toFill[s] ==> s in r.toFill && p in r.toFill[s])
  }

  /** A step only appends words and positions. */
  lemma {:induction false} StepExtends(st: ScanState, d: Decoded, line: nat)
    requires line < 0x1_0000
    ensures Extends(st, Step(st, d, line))
  {
    StepKeepsOutput(st, d, line);
  }

  lemma {:induction false} ExtendsTrans(a: ScanState, b: ScanState, c: ScanState)
    requires Extends(a, b) && Extends(b, c)
    ensures Extends(a, c)
  {
    assert c.out[..|a.out|] == c.out[..|b.out|][..|a.out|];
  }

  /** Later scans extend earlier ones. */
  lemma {:induction false} ScanExtends(ds: seq<Decoded>, k: nat, m: nat)
    requires k <= m <= |ds| < 0x1_0000
    ensures Extends(ScanUpTo(ds, k), ScanUpTo(ds, m))
    decreases m
  {
    if k < m {
      ScanExtends(ds, k, m - 1);
      ScanUpToStep(ds, m - 1);
      StepExtends(ScanUpTo(ds, m - 1), ds[m - 1], Words(ds, m));
      ExtendsTrans(ScanUpTo(ds, k), ScanUpTo(ds, m - 1), ScanUpTo(ds, m));
    } else {
      assert ScanUpTo(ds, m).out[..|ScanUpTo(ds, k).out|] == ScanUpTo(ds, k).out;
    }
  }

  /** The scan loop's final state extends the scan of every instruction, repeat or not. */
  lemma {:induction false} AssemblyExtends(lines: seq<string>)
    requires |lines| < 0x1_0000
    ensures var ds := DecodeAll(Instructions(lines));
            Extends(ScanUpTo(ds, |ds|), Assembly(lines))
  {
    var ds := DecodeAll(Instructions(lines));
    var st := ScanUpTo(ds, |ds|);
    if RepeatsLast(lines) {
      StepExtends(st, ds[|ds| - 1], Words(ds, |ds|));
    } else {
      assert st.out[..|st.out|] == st.out;
    }
  }

  /**
   * The word at index w of fin is the one the step on d from st emits: a
   * literal's binary, a known symbol's address as st has it, a
   * C-instruction's word, or a placeholder whose 1-based position fin
   * records for the unknown symbol.
   */
  ghost predicate Emitted(st: ScanState, d: Decoded, fin: ScanState, w: nat) {
    && w < |fin.out|
    && (d.Compute? ==> fin.out[w] == d.word)
    && (d.Address? && d.literal.Some? ==> fin.out[w] == ToBin16(d.literal.value))
    && (d.Address? && d.literal.None? && d.symbol in st.table ==> fin.out[w] == ToBin16(st.table[d.symbol]))
    && (d.Address? && d.literal.None? && d.symbol !in st.table ==>
          fin.out[w] == Placeholder && d.symbol in fin.toFill && w + 1 in fin.toFill[d.symbol])
  }

  /** A step on an A- or C-instruction emits its word at the end of the output, and later states keep it. */
  lemma {:induction false} StepEmits(st: ScanState, d: Decoded, line: nat, r: ScanState, fin: ScanState, w: nat)
    requires line < 0x1_0000 && !d.Label? && w == |st.out| && line == w + 1
    requires r == Step(st, d, line) && Extends(r, fin)
    ensures Emitted(st, d, fin, w)
  {
    EmittedExtends(st, d, r, fin, w);
  }

  /** Extending the state keeps an emitted word. */
  lemma {:induction false} EmittedExtends(st: ScanState, d: Decoded, r: ScanState, fin: ScanState, w: nat)
    requires Emitted(st, d, r, w) && Extends(r, fin)
    ensures Emitted(st, d, fin, w)
  {
    assert fin.out[w] == fin.out[..|r.out|][w];
  }

  /** The scan emits the word of the instruction ds[k] at index Words(ds, k) of its output. */
  lemma {:induction false} ScanEmits(ds: seq<Decoded>, k: nat)
    requires k < |ds| < 0x1_0000 && !ds[k].Label?
    ensures Emitted(ScanUpTo(ds, k), ds[k], ScanUpTo(ds, |ds|), Words(ds, k))
  {
    ScanUpToStep(ds, k);
    ScanExtends(ds, k + 1, |ds|);
    StepEmits(ScanUpTo(ds, k), ds[k], Words(ds, k + 1), ScanUpTo(ds, k + 1), ScanUpTo(ds, |ds|), Words(ds, k));
  }

  /**
   * generate_binary's word for the A- or C-instruction ds[k], whatever the
   * backfill order: the C-instruction's word, a literal's binary, the
   * address of a symbol as the table held it when the instruction was
   * reached, or else the symbol's final address (a label declared later, or
   * a variable).
   */
  lemma {:induction false} AssembledWord(lines: seq<string>, order: seq<string>, k: nat)
    requires |lines| <= MaxLines
    requires VisitOrder(order, Assembly(lines).toFill) && 16 + |order| < 0x1_0000
    requires k < |Instructions(lines)| && TypeOf(Instructions(lines)[k]) != LInstruction
    ensures var ds := DecodeAll(Instructions(lines));
            var st := ScanUpTo(ds, k);
            var a := Assembly(lines);
            var f := Backfilled(Fill(a.table, a.toFill, 16, a.out), order);
            var w := Words(ds, k);
            && w < |f.words|
            && (ds[k].Compute? ==> f.words[w] == ds[k].word)
            && (ds[k].Address? && ds[k].literal.Some? ==> f.words[w] == ToBin16(ds[k].literal.value))
            && (ds[k].Address? && ds[k].literal.None? && ds[k].symbol in st.table ==>
                  f.words[w] == ToBin16(st.table[ds[k].symbol]))
            && (ds[k].Address? && ds[k].literal.None? && ds[k].symbol !in st.table ==>
                  ds[k].symbol in f.table && f.words[w] == ToBin16(f.table[ds[k].symbol]))
  {
    var ins := Instructions(lines);
    var ds := DecodeAll(ins);
    DecodeAt(ins, k);
    DecodedWords(ins);
    ScanEmits(ds, k);
    AssemblyExtends(lines);
    EmittedExtends(ScanUpTo(ds, k), ds[k], ScanUpTo(ds, |ds|), Assembly(lines), Words(ds, k));
    AssemblyOutcome(lines, order);
  }

  class Assembler {
    const parser: Parser
    var symbolTable: map<string, u16>
    /** For each symbol used before it was known, the 1-based positions of its uses. */
    var toFill: map<string, seq<nat>>

    /** Assembler::new: a scanner over the file, the predefined symbols, nothing deferred. */
    constructor (file: seq<string>)
      ensures fresh(parser) && parser.Valid() && parser.lines == file && parser.pos == 0
      ensures symbolTable == Predefined && toFill == map[]
    {
      parser := new Parser(file);
      symbolTable := Predefined;
      toFill := map[];
    }

    /**
     * The backfill loop of generate_binary. It visits the deferred symbols in
     * an arbitrary order (the order of a HashMap); a symbol still absent from
     * the table is a variable and gets the next RAM address from 16 up, its
     * uses are overwritten and its positions emptied; a label's uses are
     * overwritten with its address.
     */
    method Backfill(binary: seq<string>) returns (filled: seq<string>)
      requires PositionsInRange(toFill, |binary|) && PositionsDisjoint(toFill)
      requires |toFill| <= MaxLines
      modifies this
      ensures exists order :: VisitOrder(order, old(toFill)) && |order| == |old(toFill)| &&
                Backfilled(Fill(old(symbolTable), old(toFill), 16, binary), order).table == symbolTable &&
                Backfilled(Fill(old(symbolTable), old(toFill), 16, binary), order).fill == toFill &&
                Backfilled(Fill(old(symbolTable), old(toFill), 16, binary), order).words == filled
    {
      ghost var deferred := toFill;
      ghost var known := symbolTable;
      ghost var start := Fill(known, deferred, 16, binary);
      ghost var order: seq<string> := [];
      filled := binary;
      var currentRam: u16 := 16;
      var remaining := toFill.Keys;
      while remaining != {}
        invariant remaining <= deferred.Keys && |order| + |remaining| == |deferred|
        invariant forall s :: s in order <==> s in deferred && s !in remaining
        invariant Distinct(order)
        invariant Fill(symbolTable, toFill, currentRam as int, filled) == Backfilled(start, order)
        decreases remaining
      {
        var symbol :| symbol in remaining;
        BackfilledFill(deferred, known, binary, order, symbol);
        BackfilledNext(start, order, symbol);
        DistinctAppend(order, symbol);
        ghost var before := Fill(symbolTable, toFill, currentRam as int, filled);
        if symbol !in symbolTable {
          symbolTable := symbolTable[symbol := currentRam];
          filled := Overwrite(filled, toFill[symbol], ToBin16(currentRam));
          toFill := toFill[symbol := []];
          currentRam := currentRam + 1;
          // the emptied positions leave nothing for the label loop to write
        } else {
          filled := Overwrite(filled, toFill[symbol], ToBin16(symbolTable[symbol]));
        }
        assert Fill(symbolTable, toFill, currentRam as int, filled) == BackfillStep(before, symbol);
        order := order + [symbol];
        remaining := remaining - {symbol};
      }
      assert VisitOrder(order, deferred) && |order| == |deferred|;
    }

    /**
     * One turn of the scan loop on the current instruction instr, with line
     * the scanner's current_line.
     */
    method Process(instr: string, line: nat, binary: seq<string>) returns (out: seq<string>)
      requires line < 0x1_0000
      modifies this
      ensures ScanState(symbolTable, toFill, out) ==
                Step(ScanState(old(symbolTable), old(toFill), binary), Decode(instr), line)
    {
      out := binary;
      match TypeOf(instr) {
        case AInstruction =>
          var addressLocation := Symbol(instr).value;
          match ParseU16(addressLocation) {
            case Some(num) =>
              out := out + [ToBin16(num)];
            case None =>
              if addressLocation in symbolTable {
                out := out + [ToBin16(symbolTable[addressLocation])];
              } else {
                toFill := toFill[addressLocation := Uses(toFill, addressLocation) + [line]];
                out := out + [Placeholder];
              }
          }
        case CInstruction =>
          out := out + [ComputeWord(instr)];
        case LInstruction =>
          symbolTable := symbolTable[Symbol(instr).value := line as u16];
      }
    }

    /**
     * The scan loop of generate_binary on a freshly constructed assembler:
     * it ends in the state ScanLines gives once every line is consumed,
     * which ScanLinesEnd shows is Assembly.
     */
    method Scan() returns (binary: seq<string>)
      requires parser.Valid() && parser.pos == 0
      requires symbolTable == Predefined && toFill == map[]
      requires |parser.lines| <= MaxLines
      requires parser.lines != [] ==> exists i :: 0 <= i < |parser.lines| && !Skipped(parser.lines[i])
      modifies this, parser
      ensures parser.Valid() && parser.pos == |parser.lines|
      ensures ScanState(symbolTable, toFill, binary) == ScanLines(parser.lines, |parser.lines|)
    {
      ghost var lines := parser.lines;
      CurrentSome(lines, |lines|);
      binary := [];
      while parser.HasMoreLines()
        invariant parser.Valid()
        invariant ScanState(symbolTable, toFill, binary) == ScanLines(lines, parser.pos)
        decreases |lines| - parser.pos
      {
        ghost var p0 := parser.pos;
        parser.Advance();
        ScanTurn(lines, p0);
        binary := Process(parser.currentInstruction.value, parser.currentLine, binary);
      }
    }

    /**
     * generate_binary on a freshly constructed assembler: the scan loop, then
     * the backfill in some order of the deferred symbols, which reaches
     * Outcome whatever that order is.
     */
    method GenerateBinary() returns (binary: seq<string>)
      requires parser.Valid() && parser.pos == 0
      requires symbolTable == Predefined && toFill == map[]
      requires |parser.lines| <= MaxLines
      requires parser.lines != [] ==> exists i :: 0 <= i < |parser.lines| && !Skipped(parser.lines[i])
      modifies this, parser
      ensures parser.Valid() && parser.pos == |parser.lines|
      ensures var st := Assembly(parser.lines);
              exists order :: VisitOrder(order, st.toFill) && 16 + |order| < 0x1_0000 &&
                Backfilled(Fill(st.table, st.toFill, 16, st.out), order).table == symbolTable &&
                Backfilled(Fill(st.table, st.toFill, 16, st.out), order).fill == toFill &&
                Backfilled(Fill(st.table, st.toFill, 16, st.out), order).words == binary
      ensures Outcome(Assembly(parser.lines), RepeatIndex(parser.lines), symbolTable, binary)
    {
      binary := Scan();
      ScanLinesEnd(parser.lines);
      AssemblyWellFormed(parser.lines);
      ghost var st := Assembly(parser.lines);
      label scanned:
      binary := Backfill(binary);
      assert unchanged@scanned(parser);
      ghost var order :| VisitOrder(order, st.toFill) && |order| == |st.toFill| &&
        Backfilled(Fill(st.table, st.toFill, 16, st.out), order).table == symbolTable &&
        Backfilled(Fill(st.table, st.toFill, 16, st.out), order).fill == toFill &&
        Backfilled(Fill(st.table, st.toFill, 16, st.out), order).words == binary;
      AssemblyOutcome(parser.lines, order);
    }
  }

}
