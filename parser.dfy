/**
 * The line scanner: a cursor over the source lines that skips blank lines and
 * lines starting with '/', takes every other line with its "//" comment
 * removed and its whitespace trimmed, and counts the A- and C-instructions it
 * has taken. The accessors that classify the current instruction and split it
 * into symbol, dest, comp and jump are pure functions of its text.
 */
module HackParser {
  import opened Options
  import opened Strings

  datatype InstructionType = AInstruction | CInstruction | LInstruction

  /** instruction_type: '@' starts an A-instruction, '(' a label, anything else a C-instruction. */
  function TypeOf(instr: string): InstructionType {
    if |instr| > 0 && instr[0] == '@' then AInstruction
    else if |instr| > 0 && instr[0] == '(' then LInstruction
    else CInstruction
  }

  /**
   * The type depends on the first character alone: '@' makes an
   * A-instruction, '(' a label, any other character or the empty text a
   * C-instruction.
   */
  lemma {:induction false} TypeByFirstChar(a: string, b: string, c: char, x: string)
    requires (a == [] && b == []) || (a != [] && b != [] && a[0] == b[0])
    ensures TypeOf(a) == TypeOf(b)
    ensures TypeOf("") == CInstruction
    ensures TypeOf("@" + x) == AInstruction
    ensures TypeOf("(" + x) == LInstruction
    ensures c != '@' && c != '(' ==> TypeOf([c] + x) == CInstruction
  {
  }

  /** symbol: for an A-instruction or a label, the text without any '@', '(' or ')'. */
  function Symbol(instr: string): (r: Option<string>)
    ensures r.None? <==> TypeOf(instr) == CInstruction
  {
    if TypeOf(instr) == CInstruction then None else Some(RemoveMarks(instr))
  }

  /** A symbol holds none of the marks it was written with. */
  lemma {:induction false} SymbolUnmarked(instr: string)
    requires TypeOf(instr) != CInstruction
    ensures forall i :: 0 <= i < |Symbol(instr).value| ==> !IsSymbolMark(Symbol(instr).value[i])
  {
  }

  /** Writing "@x" or "(x)" and taking the symbol back gives x. */
  lemma {:induction false} SymbolRoundTrip(x: string)
    requires forall i :: 0 <= i < |x| ==> !IsSymbolMark(x[i])
    ensures Symbol("@" + x) == Some(x)
    ensures Symbol("(" + x + ")") == Some(x)
  {
    assert RemoveMarks(x) == x;
    assert RemoveMarks("@") == [] by { assert "@"[1..] == []; }
    assert RemoveMarks("(") == [] by { assert "("[1..] == []; }
    assert RemoveMarks(")") == [] by { assert ")"[1..] == []; }
    RemoveMarksAppend("@", x);
    RemoveMarksAppend("(", x);
    RemoveMarksAppend("(" + x, ")");
    assert TypeOf("@" + x) == AInstruction;
    assert TypeOf("(" + x + ")") == LInstruction;
    assert RemoveMarks("@" + x) == x;
    assert RemoveMarks("(" + x + ")") == x;
  }

  /** dest: the text before the first '=', unless it holds a ';'. */
  function DestField(instr: string): (r: Option<string>)
    ensures r.Some? ==> TypeOf(instr) == CInstruction
  {
    match TypeOf(instr)
    case AInstruction | LInstruction => None
    case CInstruction =>
      var s := Before(instr, '=');
      if ';' in s then None else Some(s)
  }

  /** dest is the prefix of a C-instruction up to its first '=', when that prefix holds no ';'. */
  lemma {:induction false} DestFieldSpec(instr: string)
    ensures var r := DestField(instr);
            && (r.Some? ==> |r.value| <= |instr| && r.value == instr[..|r.value|])
            && (r.Some? ==> '=' !in r.value && ';' !in r.value)
            && (r.Some? && |r.value| < |instr| ==> instr[|r.value|] == '=')
            && (TypeOf(instr) == CInstruction && ';' !in Before(instr, '=') ==> r.Some?)
  {
  }

  /**
   * comp: after the first '=', the text up to the next ';' or '='; without
   * an '=', the text before the first ';'.
   */
  function CompField(instr: string): (r: Option<string>)
    ensures r.Some? <==> TypeOf(instr) == CInstruction
  {
    match TypeOf(instr)
    case AInstruction | LInstruction => None
    case CInstruction =>
      var e := IndexOf(instr, '=');
      if e < |instr| then Some(Before(Before(instr[e + 1..], '='), ';'))
      else Some(Before(instr, ';'))
  }

  /** comp is the longest piece of a C-instruction after its first '=' (or from its start) holding neither '=' nor ';'. */
  lemma {:induction false} CompFieldSpec(instr: string)
    ensures var r := CompField(instr);
            && (r.Some? ==> '=' !in r.value && ';' !in r.value)
            && (r.Some? ==>
                  var start := if '=' in instr then IndexOf(instr, '=') + 1 else 0;
                  && start + |r.value| <= |instr|
                  && r.value == instr[start..start + |r.value|]
                  && (start + |r.value| == |instr| || instr[start + |r.value|] == '=' || instr[start + |r.value|] == ';'))
  {
    var e := IndexOf(instr, '=');
    if TypeOf(instr) == CInstruction {
      if e < |instr| {
        var t := instr[e + 1..];
        var u := Before(t, '=');
        var s := Before(u, ';');
        assert CompField(instr) == Some(s);
        assert s == t[..|s|];
        assert s == instr[e + 1..e + 1 + |s|];
        if e + 1 + |s| < |instr| && |s| == |u| {
          assert instr[e + 1 + |s|] == t[|u|];
        }
      } else {
        assert '=' !in instr;
        assert CompField(instr) == Some(Before(instr, ';'));
      }
    }
  }

  /** jump: the text between the first ';' and the next one, if there is a ';'. */
  function JumpField(instr: string): (r: Option<string>)
    ensures r.Some? <==> TypeOf(instr) == CInstruction && ';' in instr
  {
    match TypeOf(instr)
    case AInstruction | LInstruction => None
    case CInstruction =>
      var k := IndexOf(instr, ';');
      if k < |instr| then Some(Before(instr[k + 1..], ';')) else None
  }

  /** jump is the piece of a C-instruction after its first ';' up to the next ';' or the end. */
  lemma {:induction false} JumpFieldSpec(instr: string)
    ensures var r := JumpField(instr);
            && (r.Some? ==> ';' !in r.value)
            && (r.Some? ==>
                  var start := IndexOf(instr, ';') + 1;
                  && start + |r.value| <= |instr|
                  && r.value == instr[start..start + |r.value|]
                  && (start + |r.value| == |instr| || instr[start + |r.value|] == ';'))
  {
    var k := IndexOf(instr, ';');
    if TypeOf(instr) == CInstruction && k < |instr| {
      var s := Before(instr[k + 1..], ';');
      assert s == instr[k + 1..k + 1 + |s|];
    }
  }

  /** A dest, comp or jump text: it holds neither '=' nor ';'. */
  predicate IsField(s: string) {
    '=' !in s && ';' !in s
  }

  /** The C-instruction text "dest=comp;jump", with the optional parts left out when absent. */
  function Compose(dest: Option<string>, comp: string, jump: Option<string>): string {
    var tail := if jump.Some? then ";" + jump.value else "";
    if dest.Some? then dest.value + "=" + (comp + tail) else comp + tail
  }

  lemma {:induction false} IndexOfAfter(a: string, c: char, b: string)
    requires c !in a
    ensures IndexOf(a + [c] + b, c) == |a|
  {
    assert (a + [c] + b)[|a|] == c;
  }

  lemma {:induction false} IndexOfAbsent(s: string, c: char)
    requires c !in s
    ensures IndexOf(s, c) == |s|
  {
  }

  /**
   * Splitting a composed C-instruction gives its parts back, except that a
   * lone comp with neither '=' nor ';' is also read as a dest.
   */
  lemma {:induction false} FieldsOfCompose(dest: Option<string>, comp: string, jump: Option<string>)
    requires dest.Some? ==> IsField(dest.value)
    requires IsField(comp)
    requires jump.Some? ==> IsField(jump.value)
    requires TypeOf(Compose(dest, comp, jump)) == CInstruction
    ensures CompField(Compose(dest, comp, jump)) == Some(comp)
    ensures JumpField(Compose(dest, comp, jump)) == jump
    ensures DestField(Compose(dest, comp, jump)) ==
              if dest.Some? then dest else if jump.Some? then None else Some(comp)
  {
    var tail := if jump.Some? then ";" + jump.value else "";
    var instr := Compose(dest, comp, jump);
    TailSplits(comp, tail, jump);
    if dest.Some? {
      FieldsAfterDest(dest.value, comp, tail, jump);
    } else {
      FieldsWithoutDest(comp, tail, jump);
    }
  }

  lemma {:induction false} FieldsWithoutDest(comp: string, tail: string, jump: Option<string>)
    requires IsField(comp)
    requires jump.Some? ==> IsField(jump.value) && tail == ";" + jump.value
    requires jump.None? ==> tail == ""
    requires TypeOf(comp + tail) == CInstruction
    requires Before(comp + tail, '=') == comp + tail
    requires Before(comp + tail, ';') == comp
    requires jump.Some? ==> IndexOf(comp + tail, ';') == |comp| && (comp + tail)[|comp| + 1..] == jump.value
    requires jump.Some? ==> Before(jump.value, ';') == jump.value
    requires jump.None? ==> ';' !in comp + tail
    ensures CompField(comp + tail) == Some(comp)
    ensures JumpField(comp + tail) == jump
    ensures DestField(comp + tail) == if jump.Some? then None else Some(comp)
  {
    IndexOfAbsent(comp + tail, '=');
    if jump.Some? {
      assert (comp + tail)[|comp|] == ';';
    } else {
      assert comp + tail == comp;
    }
  }

  /** How comp followed by an optional ";jump" splits on '=' and ';'. */
  lemma {:induction false} TailSplits(comp: string, tail: string, jump: Option<string>)
    requires IsField(comp)
    requires jump.Some? ==> IsField(jump.value) && tail == ";" + jump.value
    requires jump.None? ==> tail == ""
    ensures Before(comp + tail, '=') == comp + tail
    ensures Before(comp + tail, ';') == comp
    ensures jump.Some? ==> IndexOf(comp + tail, ';') == |comp| && (comp + tail)[|comp| + 1..] == jump.value
    ensures jump.Some? ==> Before(jump.value, ';') == jump.value
    ensures jump.None? ==> ';' !in comp + tail
  {
    IndexOfAbsent(comp + tail, '=');
    if jump.Some? {
      assert comp + tail == comp + [';'] + jump.value;
      IndexOfAfter(comp, ';', jump.value);
      IndexOfAbsent(jump.value, ';');
    } else {
      assert comp + tail == comp;
      IndexOfAbsent(comp, ';');
    }
  }

  lemma {:induction false} FieldsAfterDest(d: string, comp: string, tail: string, jump: Option<string>)
    requires IsField(d) && IsField(comp)
    requires jump.Some? ==> IsField(jump.value) && tail == ";" + jump.value
    requires jump.None? ==> tail == ""
    requires TypeOf(d + ['='] + (comp + tail)) == CInstruction
    requires Before(comp + tail, '=') == comp + tail
    requires Before(comp + tail, ';') == comp
    requires jump.Some? ==> IndexOf(comp + tail, ';') == |comp| && (comp + tail)[|comp| + 1..] == jump.value
    requires jump.Some? ==> Before(jump.value, ';') == jump.value
    requires jump.None? ==> ';' !in comp + tail
    ensures CompField(d + ['='] + (comp + tail)) == Some(comp)
    ensures JumpField(d + ['='] + (comp + tail)) == jump
    ensures DestField(d + ['='] + (comp + tail)) == Some(d)
  {
    var rest := comp + tail;
    var instr := d + ['='] + rest;
    IndexOfAfter(d, '=', rest);
    assert instr[|d| + 1..] == rest;
    assert instr[..|d|] == d;
    if jump.Some? {
      assert instr == (d + ['='] + comp) + [';'] + jump.value;
      IndexOfAfter(d + ['='] + comp, ';', jump.value);
      assert instr[|d| + 1 + |comp| + 1..] == jump.value;
    } else {
      assert ';' !in instr;
      IndexOfAbsent(instr, ';');
    }
  }

  /** advance skips a line that is empty or starts with '/'. */
  predicate Skipped(line: string) {
    |line| == 0 || line[0] == '/'
  }

  /** The instruction text of a line: everything before the first "//", trimmed. */
  function Clean(line: string): (r: string)
    ensures |r| <= |line|
  {
    Trim(BeforeComment(line))
  }

  /** Whether advance takes line as an instruction that occupies an address: an A- or C-instruction. */
  predicate Carries(line: string) {
    !Skipped(line) && TypeOf(Clean(line)) != LInstruction
  }

  /** The number of A- and C-instructions among the first n lines: current_line once they are consumed. */
  function Counted(lines: seq<string>, n: nat): (c: nat)
    requires n <= |lines|
    ensures c <= n
  {
    if n == 0 then 0
    else Counted(lines, n - 1) + (if Carries(lines[n - 1]) then 1 else 0)
  }

  /** The index of the last line among the first n that advance takes, or -1 when it skips them all. */
  function LastTaken(lines: seq<string>, n: nat): (k: int)
    requires n <= |lines|
    ensures -1 <= k < n
    ensures k >= 0 ==> !Skipped(lines[k])
    ensures forall j :: k < j < n ==> Skipped(lines[j])
  {
    if n == 0 then -1
    else if !Skipped(lines[n - 1]) then n - 1
    else LastTaken(lines, n - 1)
  }

  /** current_instruction once the first n lines are consumed: the last instruction taken, if any. */
  function Current(lines: seq<string>, n: nat): Option<string>
    requires n <= |lines|
  {
    var k := LastTaken(lines, n);
    if k < 0 then None else Some(Clean(lines[k]))
  }

  /** There is a current instruction exactly when some line so far was not skipped. */
  lemma {:induction false} CurrentSome(lines: seq<string>, n: nat)
    requires n <= |lines|
    ensures Current(lines, n).Some? <==> exists j :: 0 <= j < n && !Skipped(lines[j])
  {
  }

  /** The cleaned texts of the lines among the first n that advance takes, in order. */
  function Taken(lines: seq<string>, n: nat): (ins: seq<string>)
    requires n <= |lines|
    ensures |ins| <= n
  {
    if n == 0 then []
    else if Skipped(lines[n - 1]) then Taken(lines, n - 1)
    else Taken(lines, n - 1) + [Clean(lines[n - 1])]
  }

  /** Every instruction advance takes from the source, in order. */
  function Instructions(lines: seq<string>): (ins: seq<string>)
    ensures |ins| <= |lines|
  {
    Taken(lines, |lines|)
  }

  /** The number of A- and C-instructions among the first m of ins. */
  function Addresses(ins: seq<string>, m: nat): (c: nat)
    requires m <= |ins|
    ensures c <= m
  {
    if m == 0 then 0
    else Addresses(ins, m - 1) + (if TypeOf(ins[m - 1]) == LInstruction then 0 else 1)
  }

  /** Skipped lines change neither the count, nor the last instruction taken, nor what was taken. */
  lemma {:induction false} SkipLines(lines: seq<string>, lo: nat, hi: nat)
    requires lo <= hi <= |lines|
    requires forall j :: lo <= j < hi ==> Skipped(lines[j])
    ensures Counted(lines, hi) == Counted(lines, lo)
    ensures Current(lines, hi) == Current(lines, lo)
    ensures Taken(lines, hi) == Taken(lines, lo)
    decreases hi
  {
    if lo < hi {
      SkipLines(lines, lo, hi - 1);
    }
  }

  /** What advance takes from the first n lines is a prefix of what it takes from the first n' lines. */
  lemma {:induction false} TakenPrefix(lines: seq<string>, n: nat, n': nat)
    requires n <= n' <= |lines|
    ensures |Taken(lines, n)| <= |Taken(lines, n')|
    ensures Taken(lines, n')[..|Taken(lines, n)|] == Taken(lines, n)
    decreases n'
  {
    if n < n' {
      TakenPrefix(lines, n, n' - 1);
      var before := Taken(lines, n' - 1);
      if !Skipped(lines[n' - 1]) {
        assert Taken(lines, n')[..|before|] == before;
      }
    }
  }

  /** The count of A- and C-instructions depends only on the instructions counted. */
  lemma {:induction false} AddressesPrefix(a: seq<string>, b: seq<string>, m: nat)
    requires m <= |a| && m <= |b| && a[..m] == b[..m]
    ensures Addresses(a, m) == Addresses(b, m)
  {
    if m > 0 {
      assert a[m - 1] == a[..m][m - 1] == b[..m][m - 1] == b[m - 1];
      assert a[..m - 1] == a[..m][..m - 1];
      assert b[..m - 1] == b[..m][..m - 1];
      AddressesPrefix(a, b, m - 1);
    }
  }

  /** current_line and the current instruction, read off the instructions taken so far. */
  lemma {:induction false} TakenCounted(lines: seq<string>, n: nat)
    requires n <= |lines|
    ensures Counted(lines, n) == Addresses(Taken(lines, n), |Taken(lines, n)|)
    ensures Current(lines, n) ==
              if Taken(lines, n) == [] then None else Some(Taken(lines, n)[|Taken(lines, n)| - 1])
  {
    if n > 0 {
      TakenCounted(lines, n - 1);
      var before := Taken(lines, n - 1);
      if !Skipped(lines[n - 1]) {
        var ins := Taken(lines, n);
        assert ins[..|before|] == before[..|before|];
        AddressesPrefix(ins, before, |before|);
      }
    }
  }

  /**
   * Once the first n lines are consumed, current_line counts the A- and
   * C-instructions among the first m instructions of the source, and the
   * current instruction is the m-th, where m is how many were taken.
   */
  lemma {:induction false} TakenSoFar(lines: seq<string>, n: nat)
    requires n <= |lines|
    ensures |Taken(lines, n)| <= |Instructions(lines)|
    ensures Counted(lines, n) == Addresses(Instructions(lines), |Taken(lines, n)|)
    ensures Current(lines, n) ==
              if Taken(lines, n) == [] then None else Some(Instructions(lines)[|Taken(lines, n)| - 1])
  {
    var m := |Taken(lines, n)|;
    TakenPrefix(lines, n, |lines|);
    TakenCounted(lines, n);
    var ins := Instructions(lines);
    assert ins[..m][..m] == Taken(lines, n)[..m];
    AddressesPrefix(ins, Taken(lines, n), m);
    if m > 0 {
      assert ins[m - 1] == ins[..m][m - 1];
    }
  }

  /**
   * Advancing over skipped lines p0 to p1 - 2 and taking line p1 - 1 makes
   * that line the next instruction of the source and counts it.
   */
  lemma {:induction false} TakenNext(lines: seq<string>, p0: nat, p1: nat)
    requires p0 < p1 <= |lines|
    requires forall j :: p0 <= j < p1 - 1 ==> Skipped(lines[j])
    requires !Skipped(lines[p1 - 1])
    ensures |Taken(lines, p1)| == |Taken(lines, p0)| + 1 <= |Instructions(lines)|
    ensures Instructions(lines)[|Taken(lines, p0)|] == Clean(lines[p1 - 1])
    ensures Counted(lines, p1) == Addresses(Instructions(lines), |Taken(lines, p0)| + 1)
    ensures Current(lines, p1) == Some(Clean(lines[p1 - 1]))
  {
    SkipLines(lines, p0, p1 - 1);
    TakenSoFar(lines, p1);
    assert Taken(lines, p1) == Taken(lines, p0) + [Clean(lines[p1 - 1])];
  }

  /**
   * How many lines are consumed once advance runs from p: up to and
   * including the next line it takes, or every line when only skipped ones
   * remain.
   */
  function NextTaken(lines: seq<string>, p: nat): (q: nat)
    requires p <= |lines|
    ensures p <= q <= |lines|
    ensures p < |lines| ==> p < q
    decreases |lines| - p
  {
    if p == |lines| then p
    else if Skipped(lines[p]) then NextTaken(lines, p + 1)
    else p + 1
  }

  /** Advance passes over skipped lines only, and stops on a skipped line only at the end. */
  lemma {:induction false} NextTakenSkips(lines: seq<string>, p: nat)
    requires p <= |lines|
    ensures var q := NextTaken(lines, p);
            && (forall j :: p <= j < q - 1 ==> Skipped(lines[j]))
            && (p < q && Skipped(lines[q - 1]) ==> q == |lines|)
    decreases |lines| - p
  {
    if p < |lines| && Skipped(lines[p]) {
      NextTakenSkips(lines, p + 1);
    }
  }

  /**
   * Advance skips only skipped lines: it stops after the first line it
   * takes, which becomes the current instruction and is counted unless it
   * is a label, or it reaches the end and changes neither.
   */
  lemma {:induction false} AdvanceTakes(lines: seq<string>, p: nat)
    requires p <= |lines|
    ensures var q := NextTaken(lines, p);
            && (forall j :: p <= j < q - 1 ==> Skipped(lines[j]))
            && (p < q && !Skipped(lines[q - 1]) ==>
                  && Current(lines, q) == Some(Clean(lines[q - 1]))
                  && Counted(lines, q) == Counted(lines, p) + (if TypeOf(Clean(lines[q - 1])) == LInstruction then 0 else 1))
            && (p == q || Skipped(lines[q - 1]) ==>
                  q == |lines| && Current(lines, q) == Current(lines, p) && Counted(lines, q) == Counted(lines, p))
    decreases |lines| - p
  {
    var q := NextTaken(lines, p);
    if p < |lines| {
      if Skipped(lines[p]) {
        AdvanceTakes(lines, p + 1);
        SkipLines(lines, p, p + 1);
      } else {
        assert q == p + 1;
      }
    }
  }

  class Parser {
    /** The source lines (str::lines of the input). */
    const lines: seq<string>
    /** How many lines source_iterator has consumed. */
    var pos: nat
    var currentLine: nat
    var currentInstruction: Option<string>

    /**
     * The cursor state is a function of how far it has read: current_line
     * counts the A- and C-instructions taken so far, and the current
     * instruction is the last one taken.
     */
    ghost predicate Valid()
      reads this
    {
      && pos <= |lines|
      && currentLine == Counted(lines, pos)
      && currentInstruction == Current(lines, pos)
    }

    constructor (input: seq<string>)
      ensures lines == input && pos == 0
      ensures currentLine == 0 && currentInstruction == None
      ensures Valid()
    {
      lines := input;
      pos := 0;
      currentLine := 0;
      currentInstruction := None;
    }

    /** has_more_lines: whether a line is left to consume; once none is, the count is final. */
    function HasMoreLines(): (more: bool)
      reads this
      requires pos <= |lines|
      ensures !more ==> Counted(lines, pos) == Counted(lines, |lines|)
      ensures more <==> NextTaken(lines, pos) > pos
    {
      pos < |lines|
    }

    /**
     * advance: consume lines up to and including the next one that is not
     * skipped and make its cleaned text the current instruction. When only
     * skipped lines remain, consume them and change nothing else.
     */
    method Advance()
      requires Valid()
      modifies this
      ensures Valid()
      ensures pos == NextTaken(lines, old(pos))
    {
      while HasMoreLines()
        invariant old(pos) <= pos <= |lines|
        invariant NextTaken(lines, pos) == NextTaken(lines, old(pos))
        invariant Counted(lines, pos) == Counted(lines, old(pos))
        invariant Current(lines, pos) == Current(lines, old(pos))
        invariant currentLine == old(currentLine) && currentInstruction == old(currentInstruction)
        decreases |lines| - pos
      {
        var line := lines[pos];
        pos := pos + 1;
        if |line| == 0 {
          // a blank line is skipped
        } else if line[0] == '/' {
          // a line starting with '/' is skipped
        } else {
          var instr := Clean(line);
          currentInstruction := Some(instr);
          if TypeOf(instr) != LInstruction {
            currentLine := currentLine + 1;
          }
          assert LastTaken(lines, pos) == pos - 1;
          return;
        }
      }
    }
  }
}
