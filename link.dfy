/** The serial exchange with the SA818 module: the AT commands the program sends, how
    each is framed on the wire, the acknowledgement each expects, and the device object
    whose methods send a command and read one reply. The serial port is modelled by two
    queues: the framed lines written so far and the lines the module will answer with. */
module Link {
  import opened Wrappers
  import opened Text
  import opened Numerals
  import Tables
  import Validators

  const Eol := "\r\n"
  const Init := "AT+DMOCONNECT"
  const SetGroup := "AT+DMOSETGROUP"
  const Filter := "AT+SETFILTER"
  const Volume := "AT+DMOSETVOLUME"
  const Tail := "AT+SETTAIL"
  /** The ports tried, in order, when none is named. */
  const Ports: seq<string> := ["/dev/serial0", "/dev/ttyUSB0"]

  const ConnectAck := "+DMOCONNECT:0"
  const GroupAck := "+DMOSETGROUP:0"
  const FilterAck := "+DMOSETFILTER:0"
  const VolumeAck := "+DMOSETVOLUME:0"
  const TailAck := "+DMOSETTAIL:0"

  /* ---------------- framing and replies ---------------- */

  /** What send(*args) writes: the arguments joined by commas, then CR LF. */
  function Frame(args: seq<string>): string {
    Join(args, ',') + Eol
  }

  /** A frame ends in CR LF, and the text before it splits on commas back into the
      arguments, as long as none of them holds a comma. */
  lemma FrameFields(args: seq<string>)
    requires |args| >= 1
    requires forall k :: 0 <= k < |args| ==> Free(args[k], {','})
    ensures var f := Frame(args);
      |f| >= 2 && f[|f| - 2..] == Eol && Split(f[..|f| - 2], {','}) == args
  {
    var f := Frame(args);
    assert f[..|f| - 2] == Join(args, ',');
    assert f[|f| - 2..] == Eol;
    SplitJoin(args, ',');
  }

  /** What readline() gives for the next line the module sends: the line with trailing
      whitespace removed; "" when nothing arrives before the timeout; None when the
      line does not decode as ASCII (readline then returns bytes, never equal to an
      acknowledgement). */
  function NextLine(incoming: seq<string>): Option<string> {
    if incoming == [] then Some("")
    else if IsAscii(incoming[0]) then Some(RStrip(incoming[0]))
    else None
  }

  /** The lines left once readline() has taken one (or timed out). */
  function Rest(incoming: seq<string>): seq<string> {
    if incoming == [] then [] else incoming[1..]
  }

  /** The next reply is the acknowledgement: `reply == ack` after rstrip(). */
  predicate Acked(incoming: seq<string>, ack: string) {
    NextLine(incoming) == Some(ack)
  }

  /** An acknowledgement that neither is empty nor ends in whitespace, as all five are. */
  predicate AckShape(ack: string) {
    ack != [] && !IsSpace(ack[|ack| - 1])
  }

  lemma AcksShaped()
    ensures AckShape(ConnectAck) && AckShape(GroupAck) && AckShape(FilterAck)
    ensures AckShape(VolumeAck) && AckShape(TailAck)
    ensures IsAscii(ConnectAck) && IsAscii(GroupAck) && IsAscii(FilterAck)
    ensures IsAscii(VolumeAck) && IsAscii(TailAck) && IsAscii(Eol) && AllSpace(Eol)
  {
  }

  /** rstrip() removes exactly a whitespace tail. */
  lemma {:induction false} RStripSpaces(a: string, ws: string)
    requires a == [] || !IsSpace(a[|a| - 1])
    requires AllSpace(ws)
    ensures RStrip(a + ws) == a
  {
    if ws == [] {
      assert a + ws == a;
    } else {
      var s := a + ws;
      assert s[..|s| - 1] == a + ws[..|ws| - 1];
      RStripSpaces(a, ws[..|ws| - 1]);
    }
  }

  /** A reply counts as the acknowledgement exactly when a line arrived, it is ASCII,
      and it is the acknowledgement followed by nothing but whitespace (such as the
      CR LF the module ends it with). A timeout never acknowledges. */
  lemma AckedExactly(incoming: seq<string>, ack: string)
    requires AckShape(ack)
    ensures Acked(incoming, ack) <==>
      incoming != [] && IsAscii(incoming[0]) && ack <= incoming[0]
      && AllSpace(incoming[0][|ack|..])
  {
    if incoming != [] && IsAscii(incoming[0]) && ack <= incoming[0]
       && AllSpace(incoming[0][|ack|..]) {
      var raw := incoming[0];
      assert raw == ack + raw[|ack|..];
      RStripSpaces(ack, raw[|ack|..]);
    }
  }

  /** Each of the five acknowledgements, ended with CR LF as the module sends it, is
      read as that acknowledgement. */
  lemma CrLfAcknowledges(ack: string, rest: seq<string>)
    requires ack in {ConnectAck, GroupAck, FilterAck, VolumeAck, TailAck}
    ensures Acked([ack + Eol] + rest, ack)
  {
    AcksShaped();
    var line := ack + Eol;
    ConcatAscii(ack, Eol);
    assert line[|ack|..] == Eol;
    AckedExactly([line] + rest, ack);
  }

  /* ---------------- the commands ---------------- */

  /** The options of the `radio` command, after the argument types have run.
      Frequencies are in units of 0.0001 MHz; ctcss and dcs hold the tokens of
      type_ctcss and type_dcs. */
  datatype RadioOptions = RadioOptions(
    bw: int, frequency: int, offset: int, squelch: int,
    ctcss: Option<seq<string>>, dcs: Option<seq<string>>, tail: Option<bool>)

  /** The tone pair of set_radio: the CTCSS tokens when given, else the DCS tokens
      when given, else "0000" for no tone in either direction. */
  function Tones(o: RadioOptions): (t: seq<string>)
    ensures o.ctcss.Some? && o.ctcss.value != [] ==> t == o.ctcss.value
    ensures (o.ctcss.None? || o.ctcss.value == []) && o.dcs.Some? && o.dcs.value != [] ==>
      t == o.dcs.value
    ensures (o.ctcss.None? || o.ctcss.value == []) && (o.dcs.None? || o.dcs.value == []) ==>
      t == ["0000", "0000"]
  {
    var tone := if o.ctcss.Some? && o.ctcss.value != [] then o.ctcss else o.dcs;
    if tone.Some? && tone.value != [] then tone.value else ["0000", "0000"]
  }

  /** The six fields of the group command: bandwidth, transmit and receive frequency,
      transmit tone, squelch, receive tone. */
  function GroupFields(o: RadioOptions): seq<string>
    requires |Tones(o)| == 2
  {
    var rx := FormatFixed4(o.frequency);
    var tx := if o.offset == 0 then rx else FormatFixed4(o.frequency + o.offset);
    [Str(o.bw), tx, rx, Tones(o)[0], Str(o.squelch), Tones(o)[1]]
  }

  function GroupCommand(o: RadioOptions): string
    requires |Tones(o)| == 2
  {
    SetGroup + "=" + Join(GroupFields(o), ',')
  }

  /** Text made of digits, points and minus signs: what the number formats print. */
  predicate NumberText(s: string) {
    forall i :: 0 <= i < |s| ==> IsDigit(s[i]) || s[i] == '.' || s[i] == '-'
  }

  lemma NumberTextAppend(a: string, b: string)
    requires NumberText(a) && NumberText(b)
    ensures NumberText(a + b)
  {
    forall i | 0 <= i < |a + b|
      ensures IsDigit((a + b)[i]) || (a + b)[i] == '.' || (a + b)[i] == '-'
    {
      if i >= |a| {
        assert (a + b)[i] == b[i - |a|];
      }
    }
  }

  /** Number text holds no comma and is ASCII. */
  lemma NumberTextClean(s: string)
    requires NumberText(s)
    ensures Free(s, {','}) && IsAscii(s)
  {
  }

  lemma StrFree(n: int)
    ensures Free(Str(n), {','}) && IsAscii(Str(n))
  {
    var d := Digits(if n >= 0 then n else -n);
    DigitsSpec(if n >= 0 then n else -n);
    assert NumberText(d);
    if n < 0 {
      assert Str(n) == "-" + d;
      NumberTextAppend("-", d);
    } else {
      assert Str(n) == d;
    }
    NumberTextClean(Str(n));
  }

  lemma FixedFree(n: int)
    ensures Free(FormatFixed4(n), {','}) && IsAscii(FormatFixed4(n))
  {
    var m := if n < 0 then -n else n;
    var d, f := Digits(m / 10000), ZeroPad(m % 10000, 4);
    DigitsSpec(m / 10000);
    ZeroPadSpec(m % 10000, 4);
    assert NumberText(d) && NumberText(f) && NumberText(".");
    NumberTextAppend(d, ".");
    NumberTextAppend(d + ".", f);
    var body := d + "." + f;
    if n < 0 {
      assert FormatFixed4(n) == "-" + body;
      NumberTextAppend("-", body);
    } else {
      assert FormatFixed4(n) == body;
    }
    NumberTextClean(FormatFixed4(n));
  }

  /** The group command is `AT+DMOSETGROUP=` and the six fields, comma-separated,
      so that splitting it on commas gives the fields back. */
  lemma GroupCommandSplits(o: RadioOptions)
    requires |Tones(o)| == 2 && Free(Tones(o)[0], {','}) && Free(Tones(o)[1], {','})
    ensures var c := GroupCommand(o);
      var p := |SetGroup| + 1;
      |c| >= p && c[..p] == SetGroup + "=" && Split(c[p..], {','}) == GroupFields(o)
  {
    var fields := GroupFields(o);
    GroupFieldsFree(o);
    SplitJoin(fields, ',');
    var c := GroupCommand(o);
    assert c[|SetGroup| + 1..] == Join(fields, ',');
  }

  /** The fields spelled out, with the transmit frequency as frequency plus offset. */
  lemma GroupFieldsSpelled(o: RadioOptions)
    requires |Tones(o)| == 2
    ensures GroupFields(o) == [Str(o.bw), FormatFixed4(o.frequency + o.offset),
      FormatFixed4(o.frequency), Tones(o)[0], Str(o.squelch), Tones(o)[1]]
  {
    GroupTransmitField(o);
  }

  lemma GroupFieldsFree(o: RadioOptions)
    requires |Tones(o)| == 2 && Free(Tones(o)[0], {','}) && Free(Tones(o)[1], {','})
    ensures forall k :: 0 <= k < |GroupFields(o)| ==> Free(GroupFields(o)[k], {','})
  {
    var fields := GroupFields(o);
    GroupFieldsSpelled(o);
    StrFree(o.bw);
    StrFree(o.squelch);
    FixedFree(o.frequency);
    FixedFree(o.frequency + o.offset);
  }

  lemma GroupFieldsAscii(o: RadioOptions)
    requires |Tones(o)| == 2 && IsAscii(Tones(o)[0]) && IsAscii(Tones(o)[1])
    ensures forall k :: 0 <= k < |GroupFields(o)| ==> IsAscii(GroupFields(o)[k])
  {
    var fields := GroupFields(o);
    GroupFieldsSpelled(o);
    StrFree(o.bw);
    StrFree(o.squelch);
    FixedFree(o.frequency);
    FixedFree(o.frequency + o.offset);
  }

  /** The transmit field is the frequency plus the offset, whether or not the
      offset is 0. */
  lemma GroupTransmitField(o: RadioOptions)
    requires |Tones(o)| == 2
    ensures GroupFields(o)[1] == FormatFixed4(o.frequency + o.offset)
  {
    var rx := FormatFixed4(o.frequency);
    if o.offset == 0 {
      assert GroupFields(o)[1] == rx;
      SameFormat(o.frequency + o.offset, o.frequency);
    }
  }

  lemma SameFormat(a: int, b: int)
    requires a == b
    ensures FormatFixed4(a) == FormatFixed4(b)
  {
  }

  lemma GroupTransmitReads(o: RadioOptions)
    requires |Tones(o)| == 2
    ensures ParseFixed4(GroupFields(o)[1]) == Some(o.frequency + o.offset)
  {
    GroupTransmitField(o);
    FixedRoundTrip(o.frequency + o.offset);
  }

  lemma GroupReceiveReads(o: RadioOptions)
    requires |Tones(o)| == 2
    ensures ParseFixed4(GroupFields(o)[2]) == Some(o.frequency)
  {
    assert GroupFields(o)[2] == FormatFixed4(o.frequency);
    FixedRoundTrip(o.frequency);
  }

  lemma GroupIntegersRead(o: RadioOptions)
    requires |Tones(o)| == 2
    ensures ParseInt(GroupFields(o)[0]) == Some(o.bw)
    ensures ParseInt(GroupFields(o)[4]) == Some(o.squelch)
  {
    assert GroupFields(o)[0] == Str(o.bw) && GroupFields(o)[4] == Str(o.squelch);
    ParseIntStr(o.bw);
    ParseIntStr(o.squelch);
  }

  /** Transmit and receive frequency are the same text exactly when the offset is 0. */
  lemma GroupSimplex(o: RadioOptions)
    requires |Tones(o)| == 2
    ensures GroupFields(o)[1] == GroupFields(o)[2] <==> o.offset == 0
  {
    var tx := FormatFixed4(o.frequency + o.offset);
    var rx := FormatFixed4(o.frequency);
    GroupTransmitField(o);
    assert GroupFields(o)[2] == rx;
    assert tx == rx <==> o.offset == 0 by {
      FormatFixed4Injective(o.frequency + o.offset, o.frequency);
    }
  }

  /** The fields read back as the options: the bandwidth, the transmit frequency
      (frequency plus offset), the receive frequency, the tones and the squelch.
      Transmit and receive frequency are the same text exactly when the offset is 0. */
  lemma GroupFieldsRead(o: RadioOptions)
    requires |Tones(o)| == 2
    ensures var f := GroupFields(o);
      ParseInt(f[0]) == Some(o.bw)
      && ParseFixed4(f[1]) == Some(o.frequency + o.offset)
      && ParseFixed4(f[2]) == Some(o.frequency)
      && f[3] == Tones(o)[0] && ParseInt(f[4]) == Some(o.squelch) && f[5] == Tones(o)[1]
      && (f[1] == f[2] <==> o.offset == 0)
  {
    GroupIntegersRead(o);
    GroupTransmitReads(o);
    GroupReceiveReads(o);
    GroupSimplex(o);
  }

  /** The three filter flags after set_filter has given each unset one the value 1. */
  function OrOne(flag: Option<int>): int {
    if flag.Some? then flag.value else 1
  }

  function FilterCommand(emphasis: int, highpass: int, lowpass: int): string {
    Filter + "=" + Join([Str(emphasis), Str(highpass), Str(lowpass)], ',')
  }

  /** The filter command is `AT+SETFILTER=` and the three flags in the order
      pre/de-emphasis, high-pass, low-pass. */
  lemma FilterCommandFields(emphasis: int, highpass: int, lowpass: int)
    ensures var c := FilterCommand(emphasis, highpass, lowpass);
      var p := |Filter| + 1;
      |c| >= p && c[..p] == Filter + "="
      && Split(c[p..], {','}) == [Str(emphasis), Str(highpass), Str(lowpass)]
    ensures var f := Split(FilterCommand(emphasis, highpass, lowpass)[|Filter| + 1..], {','});
      |f| == 3 && ParseInt(f[0]) == Some(emphasis) && ParseInt(f[1]) == Some(highpass)
      && ParseInt(f[2]) == Some(lowpass)
  {
    var fields := [Str(emphasis), Str(highpass), Str(lowpass)];
    StrFree(emphasis);
    StrFree(highpass);
    StrFree(lowpass);
    SplitJoin(fields, ',');
    var c := FilterCommand(emphasis, highpass, lowpass);
    assert c[|Filter| + 1..] == Join(fields, ',');
    ParseIntStr(emphasis);
    ParseIntStr(highpass);
    ParseIntStr(lowpass);
  }

  function VolumeCommand(level: int): string {
    Volume + "=" + Str(level)
  }

  /** The volume command carries the level as its one field. */
  lemma VolumeCommandField(level: int)
    ensures var c := VolumeCommand(level);
      var p := |Volume| + 1;
      |c| >= p && c[..p] == Volume + "=" && ParseInt(c[p..]) == Some(level)
  {
    var c := VolumeCommand(level);
    assert c[|Volume| + 1..] == Str(level);
    ParseIntStr(level);
  }

  /** The tail command carries int(open): 1 to open the tail tone, 0 to close it. */
  function TailCommand(open: bool): (c: string)
    ensures c == Tail + "=1" || c == Tail + "=0"
    ensures c[|Tail| + 1..] == if open then "1" else "0"
  {
    Tail + "=" + Str(if open then 1 else 0)
  }

  /** What the argument parser guarantees set_radio, and what its success log relies
      on: a bandwidth of 0 or 1 (the parser's choices) to index ['Narrow', 'Wide'],
      and CTCSS tokens as type_ctcss makes them, naming positions of the table that
      the log looks the tones up in. */
  predicate ParsedOptions(o: RadioOptions) {
    (o.bw == 0 || o.bw == 1)
    && (o.ctcss.Some? ==>
          forall k :: 0 <= k < |o.ctcss.value| ==> Validators.IsCtcssToken(o.ctcss.value[k]))
  }

  /** With parsed options, the lookups of the success log are defined: the bandwidth
      indexes the two labels, and int() of each CTCSS token indexes the table. */
  lemma SuccessLogDefined(o: RadioOptions)
    requires |Tones(o)| == 2 && ParsedOptions(o)
    ensures 0 <= o.bw < 2
    ensures o.ctcss.Some? && o.ctcss.value != [] ==>
      forall k :: 0 <= k < 2 ==>
        (ParseInt(Tones(o)[k]).Some? && 0 <= ParseInt(Tones(o)[k]).value < |Tables.CtcssTones|)
  {
    if o.ctcss.Some? && o.ctcss.value != [] {
      forall k | 0 <= k < 2
        ensures ParseInt(Tones(o)[k]).Some? && 0 <= ParseInt(Tones(o)[k]).value < |Tables.CtcssTones|
      {
        ParseIntDigits(o.ctcss.value[k]);
      }
    }
  }

  /** set_radio follows the group command with a tail command exactly when a tail
      choice and a CTCSS tone were both given. */
  predicate TailWanted(o: RadioOptions) {
    o.tail.Some? && o.ctcss.Some?
  }

  /* ---------------- opening the port ---------------- */

  /** The ports __init__ tries: the one named, when a non-empty name is given, else
      the default ports. */
  function Candidates(port: Option<string>): (c: seq<string>)
    ensures port.Some? && port.value != "" ==> c == [port.value]
    ensures port.None? || port.value == "" ==> c == Ports
  {
    if port.Some? && port.value != "" then [port.value] else Ports
  }

  /** The first candidate that opens, if any. */
  function FirstOpen(candidates: seq<string>, opens: set<string>): (p: Option<string>)
    ensures p.None? <==> forall k :: 0 <= k < |candidates| ==> candidates[k] !in opens
    ensures p.Some? ==> exists k :: (0 <= k < |candidates| && candidates[k] == p.value
                                     && p.value in opens
                                     && forall j :: 0 <= j < k ==> candidates[j] !in opens)
  {
    if candidates == [] then None
    else if candidates[0] in opens then Some(candidates[0])
    else
      var p := FirstOpen(candidates[1..], opens);
      assert p.Some? ==> exists k :: (0 <= k < |candidates| && candidates[k] == p.value
                                      && p.value in opens
                                      && forall j :: 0 <= j < k ==> candidates[j] !in opens) by {
        if p.Some? {
          var k :| 0 <= k < |candidates[1..]| && candidates[1..][k] == p.value
            && p.value in opens && forall j :: 0 <= j < k ==> candidates[1..][j] !in opens;
          assert candidates[k + 1] == p.value;
        }
      }
      p
  }

  /** A port named on the command line is the only one tried: the defaults are not a
      fallback. */
  lemma NamedPortOnly(port: string, opens: set<string>)
    requires port != ""
    ensures FirstOpen(Candidates(Some(port)), opens) == if port in opens then Some(port) else None
  {
    assert Candidates(Some(port))[1..] == [];
  }

  /** The loop of __init__: try each candidate in order and keep the first that opens. */
  method FirstOpenPort(candidates: seq<string>, opens: set<string>) returns (p: Option<string>)
    ensures p == FirstOpen(candidates, opens)
  {
    p := None;
    var k := 0;
    while k < |candidates|
      invariant 0 <= k <= |candidates|
      invariant FirstOpen(candidates, opens) == FirstOpen(candidates[k..], opens)
    {
      if candidates[k] in opens {
        return Some(candidates[k]);
      }
      assert candidates[k..][1..] == candidates[k + 1..];
      k := k + 1;
    }
  }

  datatype ConnectError =
    | PortError       // no candidate port opened: IOError
    | HandshakeError  // the module did not answer the handshake: SystemError

  /* ---------------- the device ---------------- */

  /** An open connection to the module: the port in use, the framed lines written to
      it so far, and the lines the module has yet to deliver. */
  class SA818 {
    var port: string
    var sent: seq<string>
    var replies: seq<string>

    /** The port has just opened; `incoming` is what the module will answer. */
    constructor Open(port: string, incoming: seq<string>)
      ensures this.port == port && sent == [] && replies == incoming
    {
      this.port := port;
      sent := [];
      replies := incoming;
    }

    /** __init__: open the first candidate port that opens, then send the handshake
        and require its acknowledgement. A failed handshake is final: no other port
        is tried. */
    static method Connect(port: Option<string>, opens: set<string>, incoming: seq<string>)
      returns (r: Result<SA818, ConnectError>)
      ensures r == Err(PortError) <==> FirstOpen(Candidates(port), opens).None?
      ensures r == Err(HandshakeError) <==>
        FirstOpen(Candidates(port), opens).Some? && !Acked(incoming, ConnectAck)
      ensures r.Ok? ==> (fresh(r.value)
                         && Some(r.value.port) == FirstOpen(Candidates(port), opens)
                         && r.value.sent == [Frame([Init])] && r.value.replies == Rest(incoming))
    {
      var p := FirstOpenPort(Candidates(port), opens);
      if p.None? {
        return Err(PortError);
      }
      var device := new SA818.Open(p.value, incoming);
      var ok := device.Exchange(Init, ConnectAck);
      if !ok {
        return Err(HandshakeError);
      }
      return Ok(device);
    }

    /** send(*args): write the frame. A frame that is not ASCII cannot be encoded and
        nothing is written. */
    method Send(args: seq<string>) returns (encoded: bool)
      modifies this
      ensures encoded <==> IsAscii(Frame(args))
      ensures sent == old(sent) + (if encoded then [Frame(args)] else [])
      ensures replies == old(replies) && port == old(port)
    {
      var data := Frame(args);
      encoded := IsAscii(data);
      if encoded {
        sent := sent + [data];
      }
    }

    /** readline(): take the next line, or "" on a timeout once none is left. */
    method ReadLine() returns (line: Option<string>)
      modifies this
      ensures line == NextLine(old(replies)) && replies == Rest(old(replies))
      ensures sent == old(sent) && port == old(port)
    {
      line := NextLine(replies);
      replies := Rest(replies);
    }

    /** One command and its reply, as every operation performs it: the command is
        written, one line is read, and the operation succeeds exactly when that line
        is the acknowledgement. A failed reply leaves the connection as usable as
        before. */
    method Exchange(command: string, ack: string) returns (ok: bool)
      requires IsAscii(command)
      modifies this
      ensures sent == old(sent) + [Frame([command])]
      ensures replies == Rest(old(replies)) && port == old(port)
      ensures ok <==> Acked(old(replies), ack)
    {
      assert Frame([command]) == command + Eol;
      var encoded := Send([command]);
      var reply := ReadLine();
      ok := reply == Some(ack);
    }

    /** set_radio: the group command, then the tail command when a tail choice and a
        CTCSS tone were both given, whatever the reply to the group command was. */
    method SetRadio(o: RadioOptions) returns (groupOk: bool, tailOk: Option<bool>)
      requires |Tones(o)| == 2 && IsAscii(Tones(o)[0]) && IsAscii(Tones(o)[1])
      requires ParsedOptions(o)
      modifies this
      ensures groupOk <==> Acked(old(replies), GroupAck)
      ensures tailOk.Some? <==> TailWanted(o)
      ensures tailOk.Some? ==> (tailOk.value <==> Acked(Rest(old(replies)), TailAck))
      ensures sent == old(sent) + [Frame([GroupCommand(o)])]
        + (if TailWanted(o) then [Frame([TailCommand(o.tail.value)])] else [])
      ensures replies == if TailWanted(o) then Rest(Rest(old(replies))) else Rest(old(replies))
      ensures port == old(port)
    {
      GroupAscii(o);
      groupOk := Exchange(GroupCommand(o), GroupAck);
      tailOk := None;
      if o.tail.Some? && o.ctcss.Some? {
        var ok := SetTail(o.tail.value);
        tailOk := Some(ok);
      }
    }

    /** set_filter: every flag not given becomes 1 (disabled) in the options, then the
        filter command carries the three flags. */
    method SetFilter(opts: FilterOptions) returns (ok: bool)
      modifies this, opts
      ensures opts.emphasis == Some(OrOne(old(opts.emphasis)))
      ensures opts.highpass == Some(OrOne(old(opts.highpass)))
      ensures opts.lowpass == Some(OrOne(old(opts.lowpass)))
      ensures sent == old(sent) + [Frame([FilterCommand(OrOne(old(opts.emphasis)),
        OrOne(old(opts.highpass)), OrOne(old(opts.lowpass)))])]
      ensures replies == Rest(old(replies)) && port == old(port)
      ensures ok <==> Acked(old(replies), FilterAck)
    {
      if opts.emphasis.None? {
        opts.emphasis := Some(1);
      }
      if opts.highpass.None? {
        opts.highpass := Some(1);
      }
      if opts.lowpass.None? {
        opts.lowpass := Some(1);
      }
      var command := FilterCommand(opts.emphasis.value, opts.highpass.value, opts.lowpass.value);
      FilterAscii(opts.emphasis.value, opts.highpass.value, opts.lowpass.value);
      ok := Exchange(command, FilterAck);
    }

    /** set_volume: the volume command with the level. */
    method SetVolume(level: int) returns (ok: bool)
      modifies this
      ensures sent == old(sent) + [Frame([VolumeCommand(level)])]
      ensures replies == Rest(old(replies)) && port == old(port)
      ensures ok <==> Acked(old(replies), VolumeAck)
    {
      StrFree(level);
      ok := Exchange(VolumeCommand(level), VolumeAck);
    }

    /** tail: the tail command with int(open). */
    method SetTail(open: bool) returns (ok: bool)
      modifies this
      ensures sent == old(sent) + [Frame([TailCommand(open)])]
      ensures replies == Rest(old(replies)) && port == old(port)
      ensures ok <==> Acked(old(replies), TailAck)
    {
      ok := Exchange(TailCommand(open), TailAck);
    }
  }

  /** The filter options of the `filters` command; set_filter fills in the ones not
      given. None stands for a flag left out on the command line. */
  class FilterOptions {
    var emphasis: Option<int>
    var highpass: Option<int>
    var lowpass: Option<int>

    constructor (emphasis: Option<int>, highpass: Option<int>, lowpass: Option<int>)
      ensures this.emphasis == emphasis && this.highpass == highpass
      ensures this.lowpass == lowpass
    {
      this.emphasis := emphasis;
      this.highpass := highpass;
      this.lowpass := lowpass;
    }
  }

  /** Every field of a group command is ASCII when the tones are. */
  lemma GroupAscii(o: RadioOptions)
    requires |Tones(o)| == 2 && IsAscii(Tones(o)[0]) && IsAscii(Tones(o)[1])
    ensures IsAscii(GroupCommand(o))
  {
    var head := SetGroup + "=";
    assert IsAscii(head) by {
      assert head == "AT+DMOSETGROUP=";
    }
    GroupFieldsAscii(o);
    CommandAscii(head, GroupFields(o));
  }

  lemma FilterAscii(emphasis: int, highpass: int, lowpass: int)
    ensures IsAscii(FilterCommand(emphasis, highpass, lowpass))
  {
    var head := Filter + "=";
    assert IsAscii(head) by {
      assert head == "AT+SETFILTER=";
    }
    StrFree(emphasis);
    StrFree(highpass);
    StrFree(lowpass);
    CommandAscii(head, [Str(emphasis), Str(highpass), Str(lowpass)]);
  }

  lemma {:induction false} JoinAscii(pieces: seq<string>, sep: char)
    requires sep as int < 128
    requires forall k :: 0 <= k < |pieces| ==> IsAscii(pieces[k])
    ensures IsAscii(Join(pieces, sep))
  {
    if |pieces| > 1 {
      JoinAscii(pieces[1..], sep);
    }
  }

  lemma ConcatAscii(a: string, b: string)
    requires IsAscii(a) && IsAscii(b)
    ensures IsAscii(a + b)
  {
    forall i | 0 <= i < |a + b|
      ensures (a + b)[i] as int < 128
    {
      if i >= |a| {
        assert (a + b)[i] == b[i - |a|];
      }
    }
  }

  /** A command head followed by ASCII fields, comma-separated, is ASCII. */
  lemma CommandAscii(head: string, fields: seq<string>)
    requires IsAscii(head)
    requires forall k :: 0 <= k < |fields| ==> IsAscii(fields[k])
    ensures IsAscii(head + Join(fields, ','))
  {
    JoinAscii(fields, ',');
    ConcatAscii(head, Join(fields, ','));
  }
}
