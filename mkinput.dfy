/**
 * The FASTA reader of the peptide input generator: it turns a one-letter
 * amino-acid sequence file into the list of three-letter residue names,
 * framed by the N- and C-terminal groups "NTR" and "CTR".
 *
 * The file is given as its text; readlines() splits it after every
 * newline and keeps the newlines.  The script runs under Python 2, where a
 * line is a byte string and upper() changes only the ASCII letters a-z.
 */
module MkInput {
  import opened Outcomes
  import Json

  /** The one-letter codes and their residue names; X and Z stand for the phosphoserine variants. */
  const Table: map<char, string> := map[
    'A' := "ALA", 'R' := "ARG", 'N' := "ASN", 'D' := "ASP", 'C' := "CYS",
    'E' := "GLU", 'Q' := "GLN", 'G' := "GLY", 'H' := "HIS", 'I' := "ILE",
    'L' := "LEU", 'K' := "LYS", 'M' := "MET", 'F' := "PHE", 'P' := "PRO",
    'S' := "SER", 'T' := "THR", 'W' := "TRP", 'Y' := "TYR", 'V' := "VAL",
    'X' := "pSE", 'Z' := "nSE"]

  /** Every key of the table is an upper-case ASCII letter. */
  lemma {:induction false} KeysAreUpper(c: char)
    requires c in Table
    ensures 'A' <= c <= 'Z'
  {
  }

  /** str.upper() on one byte: a-z become A-Z, everything else is kept. */
  function Upper(c: char): (u: char)
    ensures 'a' <= c <= 'z' ==> 'A' <= u <= 'Z' && u as int == c as int - 32
    ensures !('a' <= c <= 'z') ==> u == c
  {
    if 'a' <= c <= 'z' then (c as int - 32) as char else c
  }

  /** A character is recognised when its upper case is a table key. */
  predicate Recognised(c: char)
  {
    Upper(c) in Table
  }

  /** A line read from the file is a header when it starts with '>'. */
  predicate IsHeader(line: string)
  {
    |line| > 0 && line[0] == '>'
  }

  /** readlines(): the text split after each newline, newlines kept, so no line is empty. */
  function ReadLines(text: string): (r: seq<string>)
    ensures forall i :: 0 <= i < |r| ==> |r[i]| > 0
    decreases |text|
  {
    if |text| == 0 then []
    else
      var e := Json.FirstIn(text, "\n");
      if e == |text| then [text] else [text[..e + 1]] + ReadLines(text[e + 1..])
  }

  /** The residue names of one line: one per recognised character, looked up by its upper case (the intended lookup). */
  function LineCodes(line: string): seq<string>
  {
    if |line| == 0 then []
    else
      var c := line[|line| - 1];
      LineCodes(line[..|line| - 1]) + (if Recognised(c) then [Table[Upper(c)]] else [])
  }

  /** The residue names of all non-header lines, in order. */
  function Codes(lines: seq<string>): seq<string>
  {
    if |lines| == 0 then []
    else
      var line := lines[|lines| - 1];
      Codes(lines[..|lines| - 1]) + (if IsHeader(line) then [] else LineCodes(line))
  }

  /** The intended result of readFasta for the file text. */
  function Fasta(text: string): seq<string>
  {
    ["NTR"] + Codes(ReadLines(text)) + ["CTR"]
  }

  /** dict[elem]: the lookup the code actually makes, with the character itself; a missing key raises KeyError. */
  function Lookup(c: char): (r: Result<string>)
    ensures r.Ok? <==> c in Table
  {
    if c in Table then Ok(Table[c]) else Err("KeyError")
  }

  /** One line as the code treats it: recognised characters are looked up as they are. */
  function LineCodesAsWritten(line: string): Result<seq<string>>
  {
    if |line| == 0 then Ok([])
    else
      var c := line[|line| - 1];
      match LineCodesAsWritten(line[..|line| - 1])
      case Err(e) => Err(e)
      case Ok(prev) =>
        if Recognised(c) then
          match Lookup(c)
          case Err(e) => Err(e)
          case Ok(name) => Ok(prev + [name])
        else Ok(prev)
  }

  /** All non-header lines as the code treats them. */
  function CodesAsWritten(lines: seq<string>): Result<seq<string>>
  {
    if |lines| == 0 then Ok([])
    else
      var line := lines[|lines| - 1];
      match CodesAsWritten(lines[..|lines| - 1])
      case Err(e) => Err(e)
      case Ok(prev) =>
        if IsHeader(line) then Ok(prev)
        else
          match LineCodesAsWritten(line)
          case Err(e) => Err(e)
          case Ok(cs) => Ok(prev + cs)
  }

  /** What readFasta does with the file text as the code is written. */
  function FastaAsWritten(text: string): Result<seq<string>>
  {
    match CodesAsWritten(ReadLines(text))
    case Err(e) => Err(e)
    case Ok(cs) => Ok(["NTR"] + cs + ["CTR"])
  }

  // ---------------------------------------------------------------------
  // The reader, as an imperative loop over lines and characters
  // ---------------------------------------------------------------------

  /** The inner loop of the intended reader: appends the residue names of one line. */
  method AppendLine(list: seq<string>, line: string) returns (out: seq<string>)
    ensures out == list + LineCodes(line)
  {
    out := list;
    var j := 0;
    while j < |line|
      invariant 0 <= j <= |line|
      invariant out == list + LineCodes(line[..j])
    {
      var elem := line[j];
      assert line[..j + 1][..j] == line[..j];
      if Upper(elem) in Table {
        out := out + [Table[Upper(elem)]];
      }
      j := j + 1;
    }
    assert line[..j] == line;
  }

  /** readFasta with the case-insensitive lookup the documentation and the table's use evidently intend. */
  method ReadFasta(text: string) returns (list: seq<string>)
    ensures list == Fasta(text)
  {
    list := ["NTR"];
    var lines := ReadLines(text);
    var i := 0;
    while i < |lines|
      invariant 0 <= i <= |lines|
      invariant list == ["NTR"] + Codes(lines[..i])
    {
      var line := lines[i];
      CodesStep(lines, i);
      if line[0] != '>' {
        list := AppendLine(list, line);
      }
      i := i + 1;
    }
    assert lines[..i] == lines;
    list := list + ["CTR"];
  }

  lemma {:induction false} CodesStep(lines: seq<string>, i: nat)
    requires i < |lines| && |lines[i]| > 0
    ensures Codes(lines[..i + 1]) == Codes(lines[..i]) + (if lines[i][0] == '>' then [] else LineCodes(lines[i]))
  {
    assert lines[..i + 1][..i] == lines[..i];
  }

  /** The inner loop as written: stops with KeyError at the first lower-case recognised character. */
  method AppendLineAsWritten(line: string) returns (r: Result<seq<string>>)
    ensures r == LineCodesAsWritten(line)
  {
    var acc: seq<string> := [];
    var j := 0;
    while j < |line|
      invariant 0 <= j <= |line|
      invariant LineCodesAsWritten(line[..j]) == Ok(acc)
    {
      var elem := line[j];
      assert line[..j + 1][..j] == line[..j];
      if Upper(elem) in Table {
        if elem !in Table {
          LineErrorPersists(line, j + 1);
          return Err("KeyError");
        }
        acc := acc + [Table[elem]];
      }
      j := j + 1;
    }
    assert line[..j] == line;
    r := Ok(acc);
  }

  /** readFasta as written, with the exception it raises modelled as an error result. */
  method ReadFastaAsWritten(text: string) returns (r: Result<seq<string>>)
    ensures r == FastaAsWritten(text)
  {
    var lines := ReadLines(text);
    var acc: seq<string> := [];
    var i := 0;
    while i < |lines|
      invariant 0 <= i <= |lines|
      invariant CodesAsWritten(lines[..i]) == Ok(acc)
    {
      var line := lines[i];
      assert lines[..i + 1][..i] == lines[..i];
      if line[0] != '>' {
        var cs := AppendLineAsWritten(line);
        if cs.Err? {
          LinesErrorPersists(lines, i + 1);
          return Err("KeyError");
        }
        acc := acc + cs.value;
      }
      i := i + 1;
    }
    assert lines[..i] == lines;
    r := Ok(["NTR"] + acc + ["CTR"]);
  }

  // ---------------------------------------------------------------------
  // Properties
  // ---------------------------------------------------------------------

  /** Once a prefix of a line raises KeyError, the whole line does. */
  lemma {:induction false} LineErrorPersists(line: string, k: nat)
    requires k <= |line| && LineCodesAsWritten(line[..k]).Err?
    ensures LineCodesAsWritten(line).Err? && LineCodesAsWritten(line).error == "KeyError"
    decreases |line| - k
  {
    if k == |line| {
      assert line[..k] == line;
      LineErrorIsKeyError(line);
    } else {
      assert line[..k + 1][..k] == line[..k];
      LineErrorPersists(line, k + 1);
    }
  }

  lemma {:induction false} LineErrorIsKeyError(line: string)
    ensures LineCodesAsWritten(line).Err? ==> LineCodesAsWritten(line).error == "KeyError"
  {
    if |line| > 0 {
      LineErrorIsKeyError(line[..|line| - 1]);
    }
  }

  lemma {:induction false} LinesErrorIsKeyError(lines: seq<string>)
    ensures CodesAsWritten(lines).Err? ==> CodesAsWritten(lines).error == "KeyError"
  {
    if |lines| > 0 {
      LinesErrorIsKeyError(lines[..|lines| - 1]);
      LineErrorIsKeyError(lines[|lines| - 1]);
    }
  }

  /** Once a prefix of the lines raises KeyError, the whole file does. */
  lemma {:induction false} LinesErrorPersists(lines: seq<string>, k: nat)
    requires k <= |lines| && CodesAsWritten(lines[..k]).Err?
    ensures CodesAsWritten(lines).Err? && CodesAsWritten(lines).error == "KeyError"
    decreases |lines| - k
  {
    if k == |lines| {
      assert lines[..k] == lines;
      LinesErrorIsKeyError(lines);
    } else {
      assert lines[..k + 1][..k] == lines[..k];
      LinesErrorPersists(lines, k + 1);
    }
  }

  /** The result always starts with the N-terminus and ends with the C-terminus. */
  lemma {:induction false} FramedByTermini(text: string)
    ensures Fasta(text)[0] == "NTR"
    ensures Fasta(text)[|Fasta(text)| - 1] == "CTR"
  {
  }

  /** The number of recognised characters in a line. */
  function RecognisedCount(line: string): nat
  {
    if |line| == 0 then 0
    else RecognisedCount(line[..|line| - 1]) + (if Recognised(line[|line| - 1]) then 1 else 0)
  }

  /** The number of recognised characters over all non-header lines. */
  function RecognisedInLines(lines: seq<string>): nat
  {
    if |lines| == 0 then 0
    else
      var line := lines[|lines| - 1];
      RecognisedInLines(lines[..|lines| - 1]) + (if IsHeader(line) then 0 else RecognisedCount(line))
  }

  lemma {:induction false} LineCodesLength(line: string)
    ensures |LineCodes(line)| == RecognisedCount(line)
  {
    if |line| > 0 {
      LineCodesLength(line[..|line| - 1]);
    }
  }

  lemma {:induction false} CodesLength(lines: seq<string>)
    ensures |Codes(lines)| == RecognisedInLines(lines)
  {
    if |lines| > 0 {
      CodesLength(lines[..|lines| - 1]);
      LineCodesLength(lines[|lines| - 1]);
    }
  }

  /** The result has two entries more than there are recognised characters in non-header lines. */
  lemma {:induction false} FastaLength(text: string)
    ensures |Fasta(text)| == 2 + RecognisedInLines(ReadLines(text))
  {
    CodesLength(ReadLines(text));
  }

  /** Header lines contribute nothing: a file of headers alone gives just the two termini. */
  lemma {:induction false} HeadersSkipped(lines: seq<string>)
    requires forall i :: 0 <= i < |lines| ==> IsHeader(lines[i])
    ensures Codes(lines) == []
  {
    if |lines| > 0 {
      var front := lines[..|lines| - 1];
      assert forall i :: 0 <= i < |front| ==> front[i] == lines[i];
      HeadersSkipped(front);
    }
  }

  /** The line with every character upper-cased. */
  function UpperLine(line: string): (r: string)
    ensures |r| == |line|
  {
    seq(|line|, i requires 0 <= i < |line| => Upper(line[i]))
  }

  /** The intended lookup ignores case: a line and its upper-cased copy give the same residues. */
  lemma {:induction false} CaseInsensitive(line: string)
    ensures LineCodes(UpperLine(line)) == LineCodes(line)
  {
    if |line| > 0 {
      var front := line[..|line| - 1];
      var u := UpperLine(line);
      assert u[..|u| - 1] == UpperLine(front);
      CaseInsensitive(front);
      var c := line[|line| - 1];
      assert u[|u| - 1] == Upper(c);
      assert Upper(Upper(c)) == Upper(c);
    }
  }

  /** 'a' and 'A' both give ALA. */
  lemma {:induction false} ExampleCaseCodes()
    ensures LineCodes("a") == ["ALA"] && LineCodes("A") == ["ALA"]
  {
    assert "a"[..0] == [];
    assert "A"[..0] == [];
  }

  /** X and Z give the phosphoserine variants, and a newline gives nothing. */
  lemma {:induction false} ExampleVariantCodes()
    ensures LineCodes("X") == ["pSE"] && LineCodes("Z") == ["nSE"]
    ensures LineCodes("\n") == []
  {
    assert "X"[..0] == [];
    assert "Z"[..0] == [];
    assert "\n"[..0] == [];
  }

  /** A lower-case recognised character: the code recognises it but its lookup raises KeyError. */
  predicate LowerKey(c: char)
  {
    Recognised(c) && c !in Table
  }

  /** The code as written succeeds on a line exactly when the line has no lower-case recognised character, and then agrees with the intended lookup. */
  lemma {:induction false} LineAsWrittenAgrees(line: string)
    ensures LineCodesAsWritten(line).Ok? <==> forall k :: 0 <= k < |line| ==> !LowerKey(line[k])
    ensures LineCodesAsWritten(line).Ok? ==> LineCodesAsWritten(line).value == LineCodes(line)
  {
    if |line| > 0 {
      var front := line[..|line| - 1];
      var c := line[|line| - 1];
      LineAsWrittenAgrees(front);
      assert forall k :: 0 <= k < |front| ==> front[k] == line[k];
      if c in Table {
        KeysAreUpper(c);
      }
    }
  }

  /** The same over a whole file: as written, readFasta raises exactly when a non-header line holds a lower-case letter of the table. */
  lemma {:induction false} AsWrittenAgrees(lines: seq<string>)
    ensures CodesAsWritten(lines).Ok? <==>
      forall i, k :: 0 <= i < |lines| && !IsHeader(lines[i]) && 0 <= k < |lines[i]| ==> !LowerKey(lines[i][k])
    ensures CodesAsWritten(lines).Ok? ==> CodesAsWritten(lines).value == Codes(lines)
  {
    if |lines| > 0 {
      var front := lines[..|lines| - 1];
      var line := lines[|lines| - 1];
      AsWrittenAgrees(front);
      LineAsWrittenAgrees(line);
      assert forall i :: 0 <= i < |front| ==> front[i] == lines[i];
    }
  }

  /** The discrepancy: on the sequence "a" the code raises KeyError where the intended reader gives NTR ALA CTR. */
  lemma {:induction false} LowerCaseRaises()
    ensures FastaAsWritten("a").Err?
    ensures Fasta("a") == ["NTR", "ALA", "CTR"]
  {
    assert Json.FirstIn("a", "\n") == 1;
    assert ReadLines("a") == ["a"];
    assert ["a"][..0] == [];
    assert "a"[..0] == [];
    assert LineCodesAsWritten("a").Err?;
    assert Codes(["a"]) == ["ALA"];
  }
}
