/** The argument types of the command line: each turns the text a user typed into
    the value or the wire token the radio is programmed with, or rejects it. */
module Validators {
  import opened Wrappers
  import opened Text
  import opened Numerals
  import opened Tables

  /** Why an argument is rejected: each names the cause of the rejection. Several causes
      share one exception in the program (a bare `argparse.ArgumentError`). */
  datatype ArgError =
    | NotANumber     // int() or float() raised ValueError
    | OutOfRange     // a number outside the accepted band or range
    | TooManyValues  // more than two comma-separated codes
    | InvalidTone    // not a number, or not a tone of the CTCSS table
    | BadDirection   // a DCS code not ending in N or I
    | UnknownCode    // a DCS code missing from the table
    | EmptyCode      // an empty DCS code: code[-1] raises IndexError
    | BadChoice      // not one of the words the option takes

  /* ---------------- frequency, squelch, level ---------------- */

  /** The two amateur bands the program accepts, in units of 0.0001 MHz:
      144 < f < 148 or 420 < f < 450, both ends excluded. */
  predicate InBand(f: int) {
    (1440000 < f < 1480000) || (4200000 < f < 4500000)
  }

  /** type_frequency: a frequency in MHz, accepted only inside one of the bands. */
  function TypeFrequency(parg: string): (r: Result<int, ArgError>)
    ensures r.Ok? <==> ParseFixed4(parg).Some? && InBand(ParseFixed4(parg).value)
    ensures r.Ok? ==> r.value == ParseFixed4(parg).value
    ensures r.Err? ==> r.error == (if ParseFixed4(parg).None? then NotANumber else OutOfRange)
  {
    match ParseFixed4(parg)
    case None => Err(NotANumber)
    case Some(f) => if !InBand(f) then Err(OutOfRange) else Ok(f)
  }

  /** A frequency written the way the program prints it reads back as itself exactly
      when it lies in a band. */
  lemma TypeFrequencyPrinted(f: int)
    ensures TypeFrequency(FormatFixed4(f)) == if InBand(f) then Ok(f) else Err(OutOfRange)
  {
    FixedRoundTrip(f);
  }

  /** Digits, a point and four fraction digits read through float() as their value in
      units of 0.0001. */
  lemma FractionFixed(w: string, f: string)
    requires |w| >= 1 && AllDigits(w) && |f| == 4 && AllDigits(f)
    ensures ParseFixed4(w + "." + f).Some?
    ensures ParseFixed4(w + "." + f).value == Value(w) * 10000 + Value(f)
  {
    ParseDecimalUnsigned(w, f);
    FourFractionDigits(false, w, f, Value(w) * 10000 + Value(f));
    ParseFixed4Decimal(w + "." + f, Decimal(false, w, f));
  }

  /** A frequency typed without a point reads through float() as whole MHz. */
  lemma WholeFixed(s: string)
    requires |s| >= 1 && AllDigits(s)
    ensures ParseFixed4(s).Some? && ParseFixed4(s).value == Value(s) * 10000
  {
    var d := Decimal(false, s, "");
    ParseDecimalWhole(s);
    NoFractionDigits(false, s);
    ParseFixed4Decimal(s, d);
  }

  /** type_squelch: an integer in range(0, 9). */
  function TypeSquelch(parg: string): (r: Result<int, ArgError>)
    ensures r.Ok? <==> ParseInt(parg).Some? && 0 <= ParseInt(parg).value <= 8
    ensures r.Ok? ==> r.value == ParseInt(parg).value
    ensures r.Err? ==> r.error == (if ParseInt(parg).None? then NotANumber else OutOfRange)
  {
    match ParseInt(parg)
    case None => Err(NotANumber)
    case Some(v) => if !(0 <= v < 9) then Err(OutOfRange) else Ok(v)
  }

  /** Every squelch level the program prints reads back; everything else is refused. */
  lemma TypeSquelchPrinted(n: int)
    ensures TypeSquelch(Str(n)) == if 0 <= n <= 8 then Ok(n) else Err(OutOfRange)
  {
    ParseIntStr(n);
  }

  /** type_level: an integer in range(1, 9). */
  function TypeLevel(parg: string): (r: Result<int, ArgError>)
    ensures r.Ok? <==> ParseInt(parg).Some? && 1 <= ParseInt(parg).value <= 8
    ensures r.Ok? ==> r.value == ParseInt(parg).value
    ensures r.Err? ==> r.error == (if ParseInt(parg).None? then NotANumber else OutOfRange)
  {
    match ParseInt(parg)
    case None => Err(NotANumber)
    case Some(v) => if !(1 <= v < 9) then Err(OutOfRange) else Ok(v)
  }

  /** Every volume level the program prints reads back; 0 and 9 are refused. */
  lemma TypeLevelPrinted(n: int)
    ensures TypeLevel(Str(n)) == if 1 <= n <= 8 then Ok(n) else Err(OutOfRange)
  {
    ParseIntStr(n);
  }

  /* ---------------- enable/disable, open/close ---------------- */

  /** enabledisable: "enable" selects 0 and "disable" selects 1, in any letter case. */
  function EnableDisable(parg: string): (r: Result<int, ArgError>)
    ensures r == Ok(0) <==> Lower(parg) == "enable"
    ensures r == Ok(1) <==> Lower(parg) == "disable"
    ensures r.Ok? || r == Err(BadChoice)
  {
    if Lower(parg) == "enable" then Ok(0)
    else if Lower(parg) == "disable" then Ok(1)
    else Err(BadChoice)
  }

  lemma {:induction false} LowerIdempotent(s: string)
    ensures Lower(Lower(s)) == Lower(s)
  {
    assert forall i :: 0 <= i < |s| ==> Lower(Lower(s))[i] == Lower(s)[i];
  }

  /** The choice depends on the letters only, not their case: any spelling reads as
      its lower-case form does. */
  lemma EnableDisableCaseInsensitive(parg: string)
    ensures EnableDisable(parg) == EnableDisable(Lower(parg))
    ensures EnableDisable("Enable") == Ok(0) && EnableDisable("DISABLE") == Ok(1)
  {
    LowerIdempotent(parg);
    assert Lower("Enable") == "enable";
    assert Lower("DISABLE") == "disable";
  }

  /** openclose as written: the lower-cased argument is tested with `in` against the
      words themselves, which is a substring test. */
  function OpenCloseAsWritten(parg: Option<string>): (r: Result<Option<bool>, ArgError>)
    ensures parg.None? ==> r == Ok(None)
    ensures r == Ok(Some(true)) <==> parg.Some? && IsSubstring(Lower(parg.value), "open")
    ensures r == Ok(Some(false)) <==>
      parg.Some? && !IsSubstring(Lower(parg.value), "open") && IsSubstring(Lower(parg.value), "close")
  {
    match parg
    case None => Ok(None)
    case Some(s) =>
      if IsSubstring(Lower(s), "open") then Ok(Some(true))
      else if IsSubstring(Lower(s), "close") then Ok(Some(false))
      else Err(BadChoice)
  }

  /** The substring test lets fragments through: the empty word and "pe" mean open,
      "e" means open too although it occurs in "close", and "los" means close. */
  lemma OpenCloseAsWrittenTakesFragments()
    ensures OpenCloseAsWritten(Some("")) == Ok(Some(true))
    ensures OpenCloseAsWritten(Some("pe")) == Ok(Some(true))
    ensures OpenCloseAsWritten(Some("E")) == Ok(Some(true))
    ensures OpenCloseAsWritten(Some("los")) == Ok(Some(false))
  {
    assert Lower("") == "" && "" <= "open"[0..];
    assert Lower("pe") == "pe" && "pe" <= "open"[1..];
    assert Lower("E") == "e" && "e" <= "open"[2..];
    assert Lower("los") == "los" && "los" <= "close"[1..];
    assert !IsSubstring("los", "open") by {
      forall i | 0 <= i <= 4
        ensures !("los" <= "open"[i..])
      {
        if i < 4 {
          assert "open"[i..][0] != 'l';
        }
      }
    }
  }

  /** openclose as evidently intended: the whole word, in any letter case. */
  function OpenClose(parg: Option<string>): (r: Result<Option<bool>, ArgError>)
    ensures parg.None? ==> r == Ok(None)
    ensures r == Ok(Some(true)) <==> parg.Some? && Lower(parg.value) == "open"
    ensures r == Ok(Some(false)) <==> parg.Some? && Lower(parg.value) == "close"
    ensures parg.Some? && r.Ok? ==> r.value.Some?
  {
    match parg
    case None => Ok(None)
    case Some(s) =>
      if Lower(s) == "open" then Ok(Some(true))
      else if Lower(s) == "close" then Ok(Some(false))
      else Err(BadChoice)
  }

  /** Wherever the intended reading accepts a word, the code as written reads it the
      same way; the two differ only on the fragments the code lets through. */
  lemma OpenCloseAgrees(parg: Option<string>)
    requires OpenClose(parg).Ok?
    ensures OpenCloseAsWritten(parg) == OpenClose(parg)
  {
    if parg.Some? {
      var w := Lower(parg.value);
      if w == "open" {
        assert w <= "open"[0..];
      } else {
        assert w == "close";
        assert w <= "close"[0..];
        assert !IsSubstring(w, "open") by {
          forall i | 0 <= i <= 4
            ensures !(w <= "open"[i..])
          {
          }
        }
      }
    }
  }

  /* ---------------- CTCSS ---------------- */

  /** A CTCSS token on the wire: four digits naming a tone of the table
      (position 0, "None", is never produced by the tone parser). */
  predicate IsCtcssToken(t: string) {
    |t| == 4 && AllDigits(t) && 1 <= Value(t) < |CtcssTones|
  }

  /** One CTCSS code: the tone's str(float(...)) spelling is looked up in the table
      and its position is sent as `{i:04d}`. */
  function EncodeCtcss(code: string): (r: Result<string, ArgError>)
    ensures r.Ok? <==> FloatStr(code).Some? && FloatStr(code).value in CtcssTones
    ensures r.Ok? ==> IsCtcssToken(r.value) && CtcssTones[Value(r.value)] == FloatStr(code).value
    ensures r.Err? ==> r.error == InvalidTone
  {
    match FloatStr(code)
    case None => Err(InvalidTone)
    case Some(tone) =>
      if tone !in CtcssTones then Err(InvalidTone)
      else
        var i := IndexOf(CtcssTones, tone);
        ToneAfterNone(code, i);
        CtcssCode(i);
        Ok(ZeroPad(i, 4))
  }

  /** A parsed tone is never "None", so it sits after position 0 of the table. */
  lemma ToneAfterNone(code: string, i: nat)
    requires FloatStr(code).Some? && i < |CtcssTones| && CtcssTones[i] == FloatStr(code).value
    ensures i != 0
  {
    FloatStrHasPoint(code);
    NoneFirst();
    assert "None"[0] != '.' && "None"[1] != '.' && "None"[2] != '.' && "None"[3] != '.';
  }

  /** The position of a tone, printed `{i:04d}`, is a CTCSS token naming that position. */
  lemma CtcssCode(i: nat)
    requires 1 <= i < |CtcssTones|
    ensures IsCtcssToken(ZeroPad(i, 4)) && Value(ZeroPad(i, 4)) == i
  {
    assert Pow10(4) == 10000;
    DigitsLength(i, 4);
    ZeroPadSpec(i, 4);
  }

  /** Typing a tone as the table lists it selects that tone: the code sent names it,
      and int() of the code indexes it back out of the table. */
  lemma CtcssTableRoundTrip(i: nat)
    requires 1 <= i < |CtcssTones|
    ensures EncodeCtcss(CtcssTones[i]).Ok?
    ensures var t := EncodeCtcss(CtcssTones[i]).value;
      ParseInt(t) == Some(Value(t)) && CtcssTones[Value(t)] == CtcssTones[i]
  {
    CtcssTonesCanonical();
    var t := EncodeCtcss(CtcssTones[i]).value;
    ParseIntDigits(t);
  }

  /** The code sent for any accepted tone reads back, through int(), as the position
      of that tone's spelling in the table. */
  lemma CtcssCodeRecoversTone(code: string)
    requires EncodeCtcss(code).Ok?
    ensures var t := EncodeCtcss(code).value;
      ParseInt(t).Some? && 0 <= ParseInt(t).value < |CtcssTones|
      && CtcssTones[ParseInt(t).value] == FloatStr(code).value
  {
    ParseIntDigits(EncodeCtcss(code).value);
  }

  /* ---------------- DCS ---------------- */

  /** A DCS token on the wire: a code of the table followed by N (normal) or
      I (inverse). */
  predicate IsDcsToken(t: string) {
    |t| == 4 && t[..3] in DcsCodes && t[3] in {'N', 'I'}
  }

  /** One DCS code: the direction letter is split off the end, the rest read by int()
      and printed `{n:03d}`, and that must be a code of the table. */
  function EncodeDcs(code: string): (r: Result<string, ArgError>)
    ensures r == Err(EmptyCode) <==> code == []
    ensures r == Err(BadDirection) <==> code != [] && code[|code| - 1] !in {'N', 'I'}
    ensures r == Err(NotANumber) <==>
      code != [] && code[|code| - 1] in {'N', 'I'} && ParseInt(code[..|code| - 1]).None?
    ensures r == Err(UnknownCode) <==>
      code != [] && code[|code| - 1] in {'N', 'I'} && ParseInt(code[..|code| - 1]).Some?
      && FormatInt(ParseInt(code[..|code| - 1]).value, 3) !in DcsCodes
    ensures r.Ok? <==>
      code != [] && code[|code| - 1] in {'N', 'I'} && ParseInt(code[..|code| - 1]).Some?
      && FormatInt(ParseInt(code[..|code| - 1]).value, 3) in DcsCodes
    ensures r.Ok? ==> IsDcsToken(r.value) && r.value[3] == code[|code| - 1]
    ensures r.Ok? ==> r.value[..3] == FormatInt(ParseInt(code[..|code| - 1]).value, 3)
  {
    if code == [] then Err(EmptyCode)
    else
      var direction := code[|code| - 1];
      if direction !in {'N', 'I'} then Err(BadDirection)
      else
        match ParseInt(code[..|code| - 1])
        case None => Err(NotANumber)
        case Some(n) =>
          var dcs := FormatInt(n, 3);
          if dcs !in DcsCodes then Err(UnknownCode)
          else
            DcsCodesAreDigits();
            assert (dcs + [direction])[..3] == dcs;
            Ok(dcs + [direction])
  }

  /** Three digits read back by int() and printed `{n:03d}` are the same three digits. */
  lemma ThreeDigitsRoundTrip(c: string)
    requires |c| == 3 && AllDigits(c)
    ensures ParseInt(c).Some? && ParseInt(c).value == Value(c)
    ensures FormatInt(Value(c), 3) == c
  {
    ParseIntDigits(c);
    assert Pow10(3) == 1000;
    DigitsLength(Value(c), 3);
    ZeroPadSpec(Value(c), 3);
    ValueInjective(ZeroPad(Value(c), 3), c);
  }

  /** A code of the table followed by a direction letter is sent exactly as typed. */
  lemma DcsTableRoundTrip(c: string, d: char)
    requires c in DcsCodes && d in {'N', 'I'}
    ensures EncodeDcs(c + [d]).Ok? && EncodeDcs(c + [d]).value == c + [d]
  {
    DcsCodesAreDigits();
    assert |c| == 3 && AllDigits(c);
    DigitsAndDirection(c, d);
  }

  lemma DigitsAndDirection(c: string, d: char)
    requires c in DcsCodes && |c| == 3 && AllDigits(c) && d in {'N', 'I'}
    ensures EncodeDcs(c + [d]).Ok? && EncodeDcs(c + [d]).value == c + [d]
  {
    var code := c + [d];
    assert code[..|code| - 1] == c;
    ThreeDigitsRoundTrip(c);
    var r := EncodeDcs(code);
    assert r.Ok?;
    assert r.value[..3] == c && r.value[3] == d && |r.value| == 4;
    assert r.value == r.value[..3] + [r.value[3]];
  }

  /* ---------------- one or two codes ---------------- */

  /** The codes of a --ctcss or --dcs argument: the comma-separated pieces, a single
      piece standing for both transmit and receive. */
  function CodeList(parg: string): (codes: seq<string>)
    ensures |Split(parg, {','})| == 1 ==> codes == [Split(parg, {','})[0], Split(parg, {','})[0]]
    ensures |Split(parg, {','})| != 1 ==> codes == Split(parg, {','})
  {
    var codes := Split(parg, {','});
    if |codes| == 1 then codes + [codes[0]] else codes
  }

  /** A single code without commas is used for both directions. */
  lemma CodeListSingle(parg: string)
    requires Free(parg, {','})
    ensures CodeList(parg) == [parg, parg]
  {
    SplitFree(parg, {','});
  }

  /** Two comma-free codes joined by a comma are used positionally, transmit first. */
  lemma CodeListPair(tx: string, rx: string)
    requires Free(tx, {','}) && Free(rx, {','})
    ensures CodeList(tx + "," + rx) == [tx, rx]
  {
    assert Join([tx, rx], ',') == tx + "," + rx by {
      assert Join([tx, rx][1..], ',') == rx;
    }
    SplitJoin([tx, rx], ',');
  }

  /** The loop shared by type_ctcss and type_dcs: each code is encoded in turn, the
      tokens collected in order, and the first code that fails stops the loop with
      its error. */
  method EncodeCodes(codes: seq<string>, encode: string -> Result<string, ArgError>)
    returns (r: Result<seq<string>, ArgError>)
    ensures r.Ok? <==> forall k :: 0 <= k < |codes| ==> encode(codes[k]).Ok?
    ensures r.Ok? ==> |r.value| == |codes|
    ensures r.Ok? ==> forall k :: 0 <= k < |codes| ==> r.value[k] == encode(codes[k]).value
    ensures r.Err? ==> exists k :: (0 <= k < |codes| && encode(codes[k]) == Err(r.error)
                                    && forall j :: 0 <= j < k ==> encode(codes[j]).Ok?)
  {
    var tokens: seq<string> := [];
    var k := 0;
    while k < |codes|
      invariant 0 <= k <= |codes|
      invariant |tokens| == k
      invariant forall j :: 0 <= j < k ==> encode(codes[j]).Ok? && tokens[j] == encode(codes[j]).value
    {
      var e := encode(codes[k]);
      if e.Err? {
        return Err(e.error);
      }
      tokens := tokens + [e.value];
      k := k + 1;
    }
    return Ok(tokens);
  }

  /** The error the loop stops on for two codes: the first one's, when it fails, else
      the second one's. */
  function FirstError(first: Result<string, ArgError>, second: Result<string, ArgError>): ArgError
    requires first.Err? || second.Err?
  {
    if first.Err? then first.error else second.error
  }

  /** What type_ctcss and type_dcs share: the codes are split on commas, a single code
      is used for both directions, three or more are refused, and each code is encoded
      in turn. */
  method TypeCodes(parg: string, encode: string -> Result<string, ArgError>)
    returns (r: Result<seq<string>, ArgError>)
    ensures |Split(parg, {','})| > 2 ==> r == Err(TooManyValues)
    ensures r.Ok? <==> (|CodeList(parg)| == 2 && encode(CodeList(parg)[0]).Ok?
                        && encode(CodeList(parg)[1]).Ok?)
    ensures r.Ok? ==>
      r.value == [encode(CodeList(parg)[0]).value, encode(CodeList(parg)[1]).value]
    ensures r.Ok? && Free(parg, {','}) ==> r.value[0] == r.value[1]
    ensures r.Err? && |CodeList(parg)| == 2 ==>
      r.error == FirstError(encode(CodeList(parg)[0]), encode(CodeList(parg)[1]))
  {
    var codes := Split(parg, {','});
    if |codes| == 1 {
      codes := codes + [codes[0]];
    } else if |codes| > 2 {
      return Err(TooManyValues);
    }
    assert codes == CodeList(parg);
    if Free(parg, {','}) {
      CodeListSingle(parg);
    }
    r := EncodeCodes(codes, encode);
    if r.Ok? {
      assert encode(codes[0]).Ok? && encode(codes[1]).Ok?;
    } else {
      var k :| 0 <= k < 2 && encode(codes[k]) == Err(r.error)
        && forall j :: 0 <= j < k ==> encode(codes[j]).Ok?;
    }
  }

  /** For "023X," the loop stops on "023X" for its direction letter and never reaches
      the empty second code, so TypeDcs fails with BadDirection, not EmptyCode. */
  lemma DcsStopsAtFirstCode()
    ensures CodeList("023X,") == ["023X", ""]
    ensures EncodeDcs(CodeList("023X,")[0]) == Err(BadDirection)
    ensures FirstError(EncodeDcs(CodeList("023X,")[0]), EncodeDcs(CodeList("023X,")[1])) == BadDirection
  {
    assert "023X," == "023X" + "," + "";
    assert Free("023X", {','});
    CodeListPair("023X", "");
  }

  /** type_ctcss: one or two tones, each sent as its position in the table. */
  method TypeCtcss(parg: string) returns (r: Result<seq<string>, ArgError>)
    ensures |Split(parg, {','})| > 2 ==> r == Err(TooManyValues)
    ensures r.Ok? <==> (|CodeList(parg)| == 2 && EncodeCtcss(CodeList(parg)[0]).Ok?
                        && EncodeCtcss(CodeList(parg)[1]).Ok?)
    ensures r.Ok? ==>
      r.value == [EncodeCtcss(CodeList(parg)[0]).value, EncodeCtcss(CodeList(parg)[1]).value]
    ensures r.Ok? && Free(parg, {','}) ==> r.value[0] == r.value[1]
    ensures r.Ok? ==> forall k :: 0 <= k < |r.value| ==> IsCtcssToken(r.value[k])
    ensures r.Err? && |CodeList(parg)| == 2 ==> r.error == InvalidTone
  {
    r := TypeCodes(parg, EncodeCtcss);
    if r.Ok? {
      CtcssPairTokens(EncodeCtcss(CodeList(parg)[0]), EncodeCtcss(CodeList(parg)[1]), r.value);
    }
  }

  lemma CtcssPairTokens(tx: Result<string, ArgError>, rx: Result<string, ArgError>, tokens: seq<string>)
    requires tx.Ok? && rx.Ok? && IsCtcssToken(tx.value) && IsCtcssToken(rx.value)
    requires tokens == [tx.value, rx.value]
    ensures forall k :: 0 <= k < |tokens| ==> IsCtcssToken(tokens[k])
  {
  }

  /** type_dcs: one or two DCS codes, each a code of the table with its direction. */
  method TypeDcs(parg: string) returns (r: Result<seq<string>, ArgError>)
    ensures |Split(parg, {','})| > 2 ==> r == Err(TooManyValues)
    ensures r.Ok? <==> (|CodeList(parg)| == 2 && EncodeDcs(CodeList(parg)[0]).Ok?
                        && EncodeDcs(CodeList(parg)[1]).Ok?)
    ensures r.Ok? ==>
      r.value == [EncodeDcs(CodeList(parg)[0]).value, EncodeDcs(CodeList(parg)[1]).value]
    ensures r.Ok? && Free(parg, {','}) ==> r.value[0] == r.value[1]
    ensures r.Ok? ==> forall k :: 0 <= k < |r.value| ==> IsDcsToken(r.value[k])
    ensures r.Err? && |CodeList(parg)| == 2 ==>
      r.error == FirstError(EncodeDcs(CodeList(parg)[0]), EncodeDcs(CodeList(parg)[1]))
  {
    r := TypeCodes(parg, EncodeDcs);
    if r.Ok? {
      DcsPairTokens(EncodeDcs(CodeList(parg)[0]), EncodeDcs(CodeList(parg)[1]), r.value);
    }
  }

  lemma DcsPairTokens(tx: Result<string, ArgError>, rx: Result<string, ArgError>, tokens: seq<string>)
    requires tx.Ok? && rx.Ok? && IsDcsToken(tx.value) && IsDcsToken(rx.value)
    requires tokens == [tx.value, rx.value]
    ensures forall k :: 0 <= k < |tokens| ==> IsDcsToken(tokens[k])
  {
  }
}
