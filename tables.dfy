/** The two code tables of the program: the CTCSS tones, whose position is the code
    sent to the module, and the DCS codes the module accepts. */
module Tables {
  import opened Wrappers
  import opened Numerals

  /** The CTCSS tones in Hz, spelled as str(float(...)) prints them, in the rows of
      the program's own table. Position 0, "None", stands for "no tone"; the code of
      a tone is its position in CtcssTones. */
  const CtcssRow0: seq<string> := ["67.0", "71.9", "74.4", "77.0", "79.7", "82.5", "85.4", "88.5"]
  const CtcssRow1: seq<string> := ["91.5", "94.8", "97.4", "100.0", "103.5", "107.2", "110.9", "114.8", "118.8"]
  const CtcssRow2: seq<string> := ["123.0", "127.3", "131.8", "136.5", "141.3", "146.2", "151.4", "156.7"]
  const CtcssRow3: seq<string> := ["162.2", "167.9", "173.8", "179.9", "186.2", "192.8", "203.5", "210.7"]
  const CtcssRow4: seq<string> := ["218.1", "225.7", "233.6", "241.8", "250.3"]
  const CtcssTones: seq<string> := ["None"] + CtcssRow0 + CtcssRow1 + CtcssRow2 + CtcssRow3 + CtcssRow4

  /** Position 0 of the tone table is the placeholder for "no tone". */
  lemma NoneFirst()
    ensures CtcssTones[0] == "None"
  {
  }

  /** The DCS codes, three octal digits each, in the rows of the program's own table. */
  const DcsRow0: seq<string> := ["023", "025", "026", "031", "032", "036", "043", "047", "051", "053", "054"]
  const DcsRow1: seq<string> := ["065", "071", "072", "073", "074", "114", "115", "116", "125", "131", "132"]
  const DcsRow2: seq<string> := ["134", "143", "152", "155", "156", "162", "165", "172", "174", "205", "223"]
  const DcsRow3: seq<string> := ["226", "243", "244", "245", "251", "261", "263", "265", "271", "306", "311"]
  const DcsRow4: seq<string> := ["315", "331", "343", "346", "351", "364", "365", "371", "411", "412", "413"]
  const DcsRow5: seq<string> := ["423", "431", "432", "445", "464", "465", "466", "503", "506", "516", "532"]
  const DcsRow6: seq<string> := ["546", "565", "606", "612", "624", "627", "631", "632", "654", "662", "664"]
  const DcsRow7: seq<string> := ["703", "712", "723", "731", "732", "734", "743", "754"]
  const DcsCodes: seq<string> := DcsRow0 + DcsRow1 + DcsRow2 + DcsRow3 + DcsRow4 + DcsRow5 + DcsRow6 + DcsRow7

  /** Three decimal digits, spelled out character by character. */
  predicate ThreeDigitCode(c: string) {
    |c| == 3 && IsDigit(c[0]) && IsDigit(c[1]) && IsDigit(c[2])
  }

  predicate ThreeDigits(row: seq<string>) {
    forall c :: c in row ==> ThreeDigitCode(c)
  }

  lemma DcsRow0Digits()
    ensures ThreeDigits(DcsRow0)
  {
  }

  lemma DcsRow1Digits()
    ensures ThreeDigits(DcsRow1)
  {
  }

  lemma DcsRow2Digits()
    ensures ThreeDigits(DcsRow2)
  {
  }

  lemma DcsRow3Digits()
    ensures ThreeDigits(DcsRow3)
  {
  }

  lemma DcsRow4Digits()
    ensures ThreeDigits(DcsRow4)
  {
  }

  lemma DcsRow5Digits()
    ensures ThreeDigits(DcsRow5)
  {
  }

  lemma DcsRow6Digits()
    ensures ThreeDigits(DcsRow6)
  {
  }

  lemma DcsRow7Digits()
    ensures ThreeDigits(DcsRow7)
  {
  }

  /** Every DCS code is three decimal digits. */
  lemma DcsCodesAreDigits()
    ensures forall c :: c in DcsCodes ==> |c| == 3 && AllDigits(c)
  {
    DcsRow0Digits(); DcsRow1Digits(); DcsRow2Digits(); DcsRow3Digits();
    DcsRow4Digits(); DcsRow5Digits(); DcsRow6Digits(); DcsRow7Digits();
    var rows := DcsRow0;
    ThreeDigitsAppend(rows, DcsRow1);
    rows := rows + DcsRow1;
    ThreeDigitsAppend(rows, DcsRow2);
    rows := rows + DcsRow2;
    ThreeDigitsAppend(rows, DcsRow3);
    rows := rows + DcsRow3;
    ThreeDigitsAppend(rows, DcsRow4);
    rows := rows + DcsRow4;
    ThreeDigitsAppend(rows, DcsRow5);
    rows := rows + DcsRow5;
    ThreeDigitsAppend(rows, DcsRow6);
    rows := rows + DcsRow6;
    ThreeDigitsAppend(rows, DcsRow7);
    rows := rows + DcsRow7;
    assert rows == DcsCodes;
    ThreeDigitsAll(rows);
  }

  lemma ThreeDigitsAppend(a: seq<string>, b: seq<string>)
    requires ThreeDigits(a) && ThreeDigits(b)
    ensures ThreeDigits(a + b)
  {
  }

  lemma ThreeDigitsAll(row: seq<string>)
    requires ThreeDigits(row)
    ensures forall c :: c in row ==> |c| == 3 && AllDigits(c)
  {
    forall c | c in row
      ensures |c| == 3 && AllDigits(c)
    {
      assert ThreeDigitCode(c);
    }
  }

  /** A tone spelled as two or three digits, not starting with 0, a point and one digit. */
  predicate ToneSpelling(t: string) {
    || (|t| == 4 && '1' <= t[0] <= '9' && IsDigit(t[1]) && t[2] == '.' && IsDigit(t[3]))
    || (|t| == 5 && '1' <= t[0] <= '9' && IsDigit(t[1]) && IsDigit(t[2]) && t[3] == '.'
        && IsDigit(t[4]))
  }

  predicate ToneSpellings(row: seq<string>) {
    forall t :: t in row ==> ToneSpelling(t)
  }

  lemma CtcssRow0Spelling()
    ensures ToneSpellings(CtcssRow0)
  {
  }

  lemma CtcssRow1Spelling()
    ensures ToneSpellings(CtcssRow1)
  {
  }

  lemma CtcssRow2Spelling()
    ensures ToneSpellings(CtcssRow2)
  {
  }

  lemma CtcssRow3Spelling()
    ensures ToneSpellings(CtcssRow3)
  {
  }

  lemma CtcssRow4Spelling()
    ensures ToneSpellings(CtcssRow4)
  {
  }

  /** A tone spelled this way is its own str(float(...)). */
  lemma ToneCanonical(t: string)
    requires ToneSpelling(t)
    ensures FloatStr(t) == Some(t)
  {
    var w := t[..|t| - 2];
    assert t == w + "." + [t[|t| - 1]];
    FloatStrCanonical(w, t[|t| - 1]);
  }

  /** Every tone after position 0 is already in the form str(float(...)) prints,
      so typing a tone exactly as listed selects it. */
  lemma CtcssTonesCanonical()
    ensures forall i :: 1 <= i < |CtcssTones| ==> FloatStr(CtcssTones[i]) == Some(CtcssTones[i])
  {
    CtcssRow0Spelling(); CtcssRow1Spelling(); CtcssRow2Spelling(); CtcssRow3Spelling();
    CtcssRow4Spelling();
    var tones := CtcssRow0 + CtcssRow1 + CtcssRow2 + CtcssRow3 + CtcssRow4;
    assert ToneSpellings(tones);
    forall i | 1 <= i < |CtcssTones|
      ensures FloatStr(CtcssTones[i]) == Some(CtcssTones[i])
    {
      assert CtcssTones[i] == tones[i - 1];
      ToneCanonical(CtcssTones[i]);
    }
  }
}
