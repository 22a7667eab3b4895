/**
 * The mnemonic encoder: three total lookup tables from the dest, comp and
 * jump fields of a C-instruction to their bit fields. An absent dest or jump
 * field encodes as "000"; an absent comp field and every string outside a
 * table encode as the literal "error".
 */
module Code {
  import opened Options
  import opened Numerals

  /** The 3-bit dest field: which of A, D and M receive the result. */
  function Dest(field: Option<string>): (r: string)
    ensures r == "error" || (|r| == 3 && IsBits(r))
  {
    match field
    case None => "000"
    case Some(m) =>
      match m
      case "M" => "001"
      case "D" => "010"
      case "DM" => "011"
      case "MD" => "011"
      case "A" => "100"
      case "AM" => "101"
      case "MA" => "101"
      case "AD" => "110"
      case "DA" => "110"
      case "ADM" => "111"
      case "AMD" => "111"
      case "DMA" => "111"
      case "DAM" => "111"
      case "MDA" => "111"
      case "MAD" => "111"
      case _ => "error"
  }

  /** The 7-bit comp field: the a-bit, then the six ALU control bits. */
  function Comp(field: Option<string>): (r: string)
    ensures r == "error" || (|r| == 7 && IsBits(r))
  {
    match field
    case None => "error"
    case Some(m) =>
      match m
      case "0" => "0101010"
      case "1" => "0111111"
      case "-1" => "0111010"
      case "D" => "0001100"
      case "A" => "0110000"
      case "M" => "1110000"
      case "!D" => "0001101"
      case "!A" => "0110001"
      case "!M" => "1110001"
      case "-D" => "0001111"
      case "-A" => "0110011"
      case "-M" => "1110011"
      case "D+1" => "0011111"
      case "A+1" => "0110111"
      case "M+1" => "1110111"
      case "D-1" => "0001110"
      case "A-1" => "0110010"
      case "M-1" => "1110010"
      case "D+A" => "0000010"
      case "D+M" => "1000010"
      case "D-A" => "0010011"
      case "D-M" => "1010011"
      case "A-D" => "0000111"
      case "M-D" => "1000111"
      case "D&A" => "0000000"
      case "D&M" => "1000000"
      case "D|A" => "0010101"
      case "D|M" => "1010101"
      case _ => "error"
  }

  /** The 3-bit jump field: the condition under which the jump is taken. */
  function Jump(field: Option<string>): (r: string)
    ensures r == "error" || (|r| == 3 && IsBits(r))
  {
    match field
    case None => "000"
    case Some(m) =>
      match m
      case "JGT" => "001"
      case "JEQ" => "010"
      case "JGE" => "011"
      case "JLT" => "100"
      case "JNE" => "101"
      case "JLE" => "110"
      case "JMP" => "111"
      case _ => "error"
  }

  /** "000" comes out of Dest and Jump exactly when the field is absent; Comp has no default. */
  lemma {:induction false} AbsentFields(field: Option<string>)
    ensures Dest(field) == "000" <==> field.None?
    ensures Jump(field) == "000" <==> field.None?
    ensures Comp(None) == "error"
  {
  }

  predicate IsDestRegister(c: char) {
    c == 'A' || c == 'D' || c == 'M'
  }

  /** One, two or three distinct registers among A, D and M, in any order. */
  predicate IsDestMnemonic(m: string) {
    && 1 <= |m| <= 3
    && (forall i :: 0 <= i < |m| ==> IsDestRegister(m[i]))
    && (forall i, j :: 0 <= i < j < |m| ==> m[i] != m[j])
  }

  function Bit(b: bool): char {
    if b then '1' else '0'
  }

  /**
   * The dest table holds exactly the orderings of distinct registers, and its
   * three bits say, from left to right, whether A, D and M are named.
   */
  lemma {:induction false} DestEncoding(m: string)
    ensures Dest(Some(m)) != "error" <==> IsDestMnemonic(m)
    ensures IsDestMnemonic(m) ==> Dest(Some(m)) == [Bit('A' in m), Bit('D' in m), Bit('M' in m)]
  {
    if IsDestMnemonic(m) {
      if |m| == 1 {
        assert m == [m[0]];
      } else if |m| == 2 {
        assert m == [m[0], m[1]];
      } else {
        assert m == [m[0], m[1], m[2]];
      }
    }
  }

  /** Orderings of the same registers encode alike, and different registers differently. */
  lemma {:induction false} DestOrderIndependent(m: string, n: string)
    requires IsDestMnemonic(m) && IsDestMnemonic(n)
    ensures Dest(Some(m)) == Dest(Some(n)) <==> (forall c :: c in m <==> c in n)
  {
    DestEncoding(m);
    DestEncoding(n);
    if forall c :: c in m <==> c in n {
    } else {
      var c :| !(c in m <==> c in n);
      assert IsDestRegister(c) by {
        if c in m { var i :| 0 <= i < |m| && m[i] == c; } else { var i :| 0 <= i < |n| && n[i] == c; }
      }
    }
  }

  /** The 28 comp mnemonics. */
  const CompMnemonics: set<string> := {
    "0", "1", "-1", "D", "A", "M", "!D", "!A", "!M", "-D", "-A", "-M",
    "D+1", "A+1", "M+1", "D-1", "A-1", "M-1", "D+A", "D+M", "D-A", "D-M",
    "A-D", "M-D", "D&A", "D&M", "D|A", "D|M"}

  /** The comp table read backwards: the mnemonic of a 7-bit code. */
  function CompMnemonic(code: string): Option<string> {
    match code
    case "0101010" => Some("0")
    case "0111111" => Some("1")
    case "0111010" => Some("-1")
    case "0001100" => Some("D")
    case "0110000" => Some("A")
    case "1110000" => Some("M")
    case "0001101" => Some("!D")
    case "0110001" => Some("!A")
    case "1110001" => Some("!M")
    case "0001111" => Some("-D")
    case "0110011" => Some("-A")
    case "1110011" => Some("-M")
    case "0011111" => Some("D+1")
    case "0110111" => Some("A+1")
    case "1110111" => Some("M+1")
    case "0001110" => Some("D-1")
    case "0110010" => Some("A-1")
    case "1110010" => Some("M-1")
    case "0000010" => Some("D+A")
    case "1000010" => Some("D+M")
    case "0010011" => Some("D-A")
    case "1010011" => Some("D-M")
    case "0000111" => Some("A-D")
    case "1000111" => Some("M-D")
    case "0000000" => Some("D&A")
    case "1000000" => Some("D&M")
    case "0010101" => Some("D|A")
    case "1010101" => Some("D|M")
    case _ => None
  }

  /**
   * Comp knows exactly the 28 mnemonics; each code decodes back to its
   * mnemonic, and its leading a-bit is 1 exactly when the mnemonic reads M.
   */
  lemma {:induction false} CompEncoding(m: string)
    ensures Comp(Some(m)) != "error" <==> m in CompMnemonics
    ensures m in CompMnemonics ==> CompMnemonic(Comp(Some(m))) == Some(m)
    ensures m in CompMnemonics ==> (Comp(Some(m))[0] == '1' <==> 'M' in m)
  {
  }

  /** Distinct comp mnemonics have distinct codes. */
  lemma {:induction false} CompInjective(m: string, n: string)
    requires m in CompMnemonics && n in CompMnemonics && m != n
    ensures Comp(Some(m)) != Comp(Some(n))
  {
    CompEncoding(m);
    CompEncoding(n);
  }

  /** The seven jump mnemonics. */
  const JumpMnemonics: set<string> := {"JGT", "JEQ", "JGE", "JLT", "JNE", "JLE", "JMP"}

  /** The jump table read backwards: the mnemonic of a 3-bit code. */
  function JumpMnemonic(code: string): Option<string> {
    match code
    case "001" => Some("JGT")
    case "010" => Some("JEQ")
    case "011" => Some("JGE")
    case "100" => Some("JLT")
    case "101" => Some("JNE")
    case "110" => Some("JLE")
    case "111" => Some("JMP")
    case _ => None
  }

  /**
   * Jump knows exactly the seven mnemonics; each gets a non-zero code that
   * decodes back to it, and the unconditional JMP gets 111.
   */
  lemma {:induction false} JumpEncoding(m: string)
    ensures Jump(Some(m)) != "error" <==> m in JumpMnemonics
    ensures m in JumpMnemonics ==> JumpMnemonic(Jump(Some(m))) == Some(m) && Jump(Some(m)) != "000"
    ensures Jump(Some("JMP")) == "111"
  {
  }
}
