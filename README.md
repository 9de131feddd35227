# SA818 programmer, modelled in Dafny

`sa818.py` programs an SA818 VHF/UHF transceiver module over a serial line. It turns
command-line arguments into AT commands, writes each command followed by CR LF, and
reads one reply line, which must be the module's acknowledgement. This project
models the core of that program:

- the argument types: `type_frequency`, `type_ctcss`, `type_dcs`, `type_squelch`,
  `type_level`, `enabledisable` and `openclose`;
- the two code tables, `CTCSS` and `DCS_CODES`;
- the device object `SA818`:
  - `__init__`: try the ports in turn, then the `AT+DMOCONNECT` handshake;
  - `send` and `readline`;
  - `set_radio`, `set_filter`, `set_volume` and `tail`.

Modules:

- `Wrappers` (`wrappers.dfy`): `Option` and `Result`.
- `Text` (`text.dfy`): the parts of Python's `str` the program relies on. These are
  whitespace as `str.isspace` defines it, `strip`/`rstrip`, ASCII `lower`,
  `split`/`join` and the `in` substring test.
- `Numerals` (`numerals.dfy`): `int()` and `float()` on the user's text, and the
  `{n}`, `{n:0Nd}` and `{x:.4f}` formats.
- `Tables` (`tables.dfy`): the CTCSS tones and the DCS codes.
- `Validators` (`validators.dfy`): the argument types. Each returns a `Result`, whose
  error names the cause of the rejection. Several causes share one exception in the
  program, so the error is finer than what the program reports. `type_ctcss` and
  `type_dcs` share a loop over the one or two codes, which is a method proved against
  the encoding functions.
- `Link` (`link.dfy`): the commands, their framing and their acknowledgements.
  - The class `SA818` keeps the port in use and two queues:
    - `sent`: the framed lines written so far;
    - `replies`: the lines the module has yet to deliver.
  - An empty `replies` queue stands for a read timeout: `readline` then gives `""`.

Frequencies and offsets are integers in units of 0.0001 MHz. The program formats
them with `.4f`, so four decimals are all it ever puts on the wire, and in these
units the format is exact. `float()` is modelled on exponent-free decimals.

## Model

| member | source | states |
|---|---|---|
| Text.RStrip | sa818.py:110 | `rstrip()` returns a prefix of the line. Only whitespace is removed, and the result does not end in whitespace. |
| Text.Lower | sa818.py:290 | `lower()` keeps the length and lower-cases each ASCII letter in place. |
| Text.IndexOf | sa818.py:228 | `tuple.index` returns the first position holding the value. |
| Text.Split | sa818.py:216 | `split(',')` yields at least one piece, and no piece holds a comma. |
| Text.JoinSplit | sa818.py:216 | Joining the pieces of a split with the separator gives back the original string. |
| Text.SplitJoin | sa818.py:91 | Splitting a comma-join of comma-free arguments gives back exactly those arguments. |
| Text.SplitSingle | sa818.py:216-218 | An argument splits into a single code exactly when it holds no comma. |
| Numerals.DigitsSpec | sa818.py:138 | `str(n)` is non-empty decimal digits with no leading zero, and it denotes n. |
| Numerals.ZeroPadSpec | sa818.py:229 | `{n:0Nd}` is at least N digits long and denotes n. |
| Numerals.ValueShift | sa818.py:203 | Appending k zeros to a digit string multiplies its value by 10^k. |
| Numerals.PaddedFraction | sa818.py:203 | A fraction of at most four digits reads as the same value as that fraction padded with zeros to four digits, so "146.52" means what "146.5200" means. |
| Numerals.ParseIntStr | sa818.py:267 | `int(str(n)) == n` for every integer. |
| Numerals.ParseIntDigits | sa818.py:254 | `int()` reads plain digits as the number they denote. |
| Numerals.ParseDecimalUnsigned | sa818.py:203 | `float()` reads digits, a point and digits as exactly those whole and fraction parts. |
| Numerals.ParseDecimalNegative | sa818.py:203 | `float()` reads a minus sign, digits, a point and digits as the negative decimal with those parts. |
| Numerals.ParseDecimalWhole | sa818.py:203 | `float()` reads plain digits as a whole number with no fraction. |
| Numerals.FloatStrHasPoint | sa818.py:225 | Whatever `str(float(code))` prints contains a point, so it is never the placeholder "None". |
| Numerals.FloatStrCanonical | sa818.py:225 | A whole part without a leading zero, followed by one fraction digit, is its own `str(float(...))`. |
| Numerals.FixedRoundTrip | sa818.py:133-136 | The `.4f` text of every value reads back through `float()` as that value. |
| Numerals.FormatFixed4Parts | sa818.py:133-136 | The `.4f` text is a sign, whole digits, a point and exactly four fraction digits, which together make up the value. |
| Numerals.FormatFixed4Injective | sa818.py:132-136 | Two values print alike under `.4f` exactly when they are equal. |
| Tables.DcsCodesAreDigits | sa818.py:34-43 | Every DCS code of the table is three decimal digits. |
| Tables.CtcssTonesCanonical | sa818.py:26-32 | Every tone after position 0 is already in the form `str(float(...))` prints. |
| Tables.ToneCanonical | sa818.py:27-31 | A tone spelled with two or three digits, a point and one digit is its own `str(float(...))`. |
| Validators.TypeFrequency | sa818.py:201-210 | Accepts exactly the numbers with 144 < f < 148 or 420 < f < 450, both ends excluded, and returns that number. Text that is not a number is NotANumber; any other rejection is OutOfRange. |
| Validators.TypeFrequencyPrinted | sa818.py:201-210 | A frequency typed as `.4f` prints it is accepted, as itself, exactly when it lies in a band. |
| Validators.FractionFixed | sa818.py:203 | Digits, a point and four digits read as whole times 10000 plus fraction, in units of 0.0001. |
| Validators.WholeFixed | sa818.py:203 | A frequency typed without a point reads as whole MHz. |
| Validators.TypeSquelch | sa818.py:265-274 | Accepts exactly the integers 0..8 and returns the integer. Non-integers are NotANumber; other integers are OutOfRange. |
| Validators.TypeSquelchPrinted | sa818.py:265-274 | `str(n)` is accepted, as n, exactly when 0 <= n <= 8. |
| Validators.TypeLevel | sa818.py:277-286 | Accepts exactly the integers 1..8 and returns the integer. Non-integers are NotANumber; other integers are OutOfRange. |
| Validators.TypeLevelPrinted | sa818.py:277-286 | `str(n)` is accepted, as n, exactly when 1 <= n <= 8. |
| Validators.EnableDisable | sa818.py:289-294 | 0 exactly when the lower-cased word is "enable", 1 exactly when it is "disable", and BadChoice otherwise. |
| Validators.EnableDisableCaseInsensitive | sa818.py:289-294 | The result depends only on the lower-case form, so "Enable" gives 0 and "DISABLE" gives 1. |
| Validators.OpenCloseAsWritten | sa818.py:297-304 | As written: a missing argument stays None. True exactly when the lower-cased word is a substring of "open". False exactly when it is not, but is a substring of "close". |
| Validators.OpenCloseAsWrittenTakesFragments | sa818.py:300-303 | "", "pe" and "E" are taken as open, and "los" as close. |
| Validators.OpenClose | sa818.py:297-304 | As intended: True exactly for "open" and False exactly for "close", in any letter case. A missing argument stays None; anything else is BadChoice. |
| Validators.OpenCloseAgrees | sa818.py:297-304 | Wherever the intended reading accepts a word, the code as written gives the same result. |
| Validators.EncodeCtcss | sa818.py:224-232 | Accepted exactly when `str(float(code))` is in the table. The result is four digits naming a table position after "None" that holds that spelling. Every rejection is InvalidTone. |
| Validators.CtcssCode | sa818.py:228-229 | `{i:04d}` of a table position is four digits denoting i. |
| Validators.CtcssTableRoundTrip | sa818.py:224-229 | Typing any tone as the table lists it is accepted. `int()` of the code sent indexes that same tone. |
| Validators.CtcssCodeRecoversTone | sa818.py:148-149 | For any accepted tone, `CTCSS[int(code)]` is the spelling that was looked up. |
| Validators.EncodeDcs | sa818.py:247-260 | Each rejection is tied to its cause, in the code's order: an empty code, a last character other than N or I, a rest that is not an integer, or `{int:03d}` not in the table. Otherwise the result is the table code followed by the direction letter. |
| Validators.ThreeDigitsRoundTrip | sa818.py:254 | `f"{int(c):03d}" == c` for every three-digit c. |
| Validators.DcsTableRoundTrip | sa818.py:247-260 | A table code followed by N or I is accepted and sent exactly as typed. |
| Validators.CodeList | sa818.py:216-218 | A single piece is doubled into the same code for transmit and receive; any other number of pieces is kept as it is, in order. |
| Validators.CodeListSingle | sa818.py:216-218 | A comma-free argument gives the same code for transmit and receive. |
| Validators.CodeListPair | sa818.py:216-217 | Two comma-free codes joined by a comma are used positionally, transmit first. |
| Validators.EncodeCodes | sa818.py:223-234 | The loop succeeds exactly when every code encodes, and then returns their tokens in order. On failure it returns the error of the first code that fails. |
| Validators.TypeCodes | sa818.py:216-234 | More than two pieces is TooManyValues. Success holds exactly when both codes of the list encode, and the result is their two tokens. A single code gives equal tokens. A failure carries the error of the first code that fails, since the loop stops there. |
| Validators.DcsStopsAtFirstCode | sa818.py:247-250 | For "023X," the pieces are "023X" and "", the first fails with BadDirection, and that is the error of the pair, so the empty second piece never decides it. |
| Validators.TypeCtcss | sa818.py:213-234 | The same, for CTCSS tones. Every token returned is four digits naming a table position, and any rejection of a tone is InvalidTone. |
| Validators.TypeDcs | sa818.py:237-262 | The same, for DCS codes. Every token returned is a table code and a direction letter. A failure carries the first failing code's cause: for "023X," that is BadDirection, and the empty second piece is never reached. |
| Link.FrameFields | sa818.py:90-93 | A frame ends in CR LF. Splitting the rest on commas gives back the arguments. |
| Link.AckedExactly | sa818.py:99-110 | A reply is the acknowledgement exactly when a line arrived, it is ASCII, and it is the acknowledgement followed only by whitespace. A timeout never acknowledges. |
| Link.CrLfAcknowledges | sa818.py:84 | Each of the five acknowledgements, ended with CR LF as the module sends it, is read as that acknowledgement. |
| Link.SuccessLogDefined | sa818.py:145-149 | With options as the parser produces them, the success log's lookups are defined: the bandwidth indexes the two labels, and `int()` of each CTCSS token indexes the table. |
| Link.Tones | sa818.py:126-130 | The CTCSS tokens when given, else the DCS tokens when given, else "0000" for both directions. |
| Link.GroupTransmitField | sa818.py:132-136 | The transmit field is frequency plus offset, also when the offset is 0. |
| Link.GroupFieldsSpelled | sa818.py:138 | The six fields in order: bandwidth, transmit frequency, receive frequency, transmit tone, squelch, receive tone. |
| Link.GroupFieldsRead | sa818.py:132-138 | The fields read back as bandwidth, frequency plus offset, frequency, tones and squelch. Transmit and receive text are equal exactly when the offset, a whole number of 0.0001 MHz units, is 0. |
| Link.GroupSimplex | sa818.py:132-136 | Transmit and receive frequency are the same text exactly when the offset, a whole number of 0.0001 MHz units, is 0. |
| Link.GroupCommandSplits | sa818.py:138 | The group command is `AT+DMOSETGROUP=` followed by the six fields, which splitting on commas gives back. |
| Link.GroupAscii | sa818.py:93 | A group command with ASCII tones is ASCII, so it encodes. |
| Link.FilterCommandFields | sa818.py:169 | The filter command is `AT+SETFILTER=` followed by the three flags, which read back in order. |
| Link.FilterAscii | sa818.py:93 | The filter command is ASCII. |
| Link.VolumeCommandField | sa818.py:180 | The volume command is `AT+DMOSETVOLUME=` followed by the level, which reads back. |
| Link.TailCommand | sa818.py:191 | The tail command is `AT+SETTAIL=1` to open and `AT+SETTAIL=0` to close. |
| Link.Candidates | sa818.py:63-66 | A non-empty named port is the only candidate; otherwise the two default ports are. |
| Link.FirstOpen | sa818.py:68-77 | None exactly when no candidate opens. Otherwise the first candidate that opens. |
| Link.NamedPortOnly | sa818.py:63-80 | With a port named, only that port is tried; the defaults are no fallback. |
| Link.FirstOpenPort | sa818.py:68-77 | The loop over the candidates returns the first one that opens. |
| Link.SA818.Connect | sa818.py:61-85 | PortError exactly when no candidate opens. HandshakeError exactly when one opens but the reply is not `+DMOCONNECT:0`. Otherwise the device is on that port, has sent the handshake frame and has taken one reply. |
| Link.SA818.Send | sa818.py:90-97 | Writes the comma-joined arguments plus CR LF when they are ASCII. Only `sent` changes. |
| Link.SA818.ReadLine | sa818.py:99-110 | Takes the next reply as `NextLine` reads it, and drops it from the queue. |
| Link.SA818.Exchange | sa818.py:170-173 | One framed command and one reply; succeeds exactly when the reply is the acknowledgement. |
| Link.SA818.SetRadio | sa818.py:125-161 | For options as the parser produces them, sends the group command. It also sends the tail command exactly when a tail choice and a CTCSS tone are both given, whatever the first reply was. Each result is exactly "its reply is the acknowledgement". |
| Link.SA818.SetFilter | sa818.py:163-177 | Flags not given become 1 in the options, and the filter command carries the three flags. Succeeds exactly on `+DMOSETFILTER:0`. |
| Link.SA818.SetVolume | sa818.py:179-187 | Sends the volume command. Succeeds exactly on `+DMOSETVOLUME:0`. |
| Link.SA818.SetTail | sa818.py:189-198 | Sends the tail command. Succeeds exactly on `+DMOSETTAIL:0`. |

## Left out

- Serial I/O is not modelled.
  - Opening a port becomes a set of the ports that would open.
  - Writing becomes appending to `sent`.
  - Reading becomes taking the head of `replies`.
  - The baud rate, the other line settings and the read timeout are not modelled.
- The `time.sleep` pauses and all logging are not modelled, including the messages that
  describe a successful setting. The results do not depend on them, except where a
  success log can raise: see the Link.SA818.SetRadio and Link.SA818.SetFilter lines.
- `version()` and `close()` are not modelled. They are outside the configuration operations.
- The command-line parser, `format_codes`, `set_loglevel`, `main` and `setup.py` are not
  modelled. They are glue around the modelled operations.
- Link.SA818.Send: a frame that is not ASCII makes `bytes(..., 'ascii')` raise
  UnicodeEncodeError. The model reports false and writes nothing instead.
- Link.SA818.Send: the error pyserial raises on a failed write is caught and only logged.
  The model has no such failure.
- Link.SA818.ReadLine: a line that does not decode as ASCII is read as None. The source
  returns the raw bytes, which never equal an acknowledgement. Read errors, which return
  None, are not modelled separately.
- Link.SA818.SetRadio: requires ASCII tones. type_ctcss and type_dcs only ever produce
  digit tokens and N/I.
- Link.SA818.SetRadio: requires exactly two tones, as type_ctcss and type_dcs always
  return. Any other count would make the tuple unpacking raise.
- Link.SA818.SetRadio: the code sends the tail command whenever a tail choice and a CTCSS
  tone were given, even after a failed group reply (sa818.py:142-161); the model follows
  the code.
- Link.SA818.SetRadio: requires a bandwidth of 0 or 1 and CTCSS tokens naming table
  positions, as the parser's `choices=(0, 1)` and type_ctcss guarantee. With other
  options the success log at sa818.py:145-149 raises after a good group reply, and no
  tail command is sent; the model has no such path.
- Link.SA818.SetFilter: the flags are not range-checked. `_rx[...]` in the success log
  would raise for a flag other than 0 or 1, and logging is not modelled.
- Numerals.ParseFixed4: `float()` on text with an exponent, or with `inf` or `nan`,
  is not modelled. It is read as not a number.
- Numerals.ParseFixed4: reading is exact to 0.0001 MHz. Text with more than four
  significant decimals is read as not a number, and binary floating-point rounding is
  not modelled.
- Validators.TypeFrequency: rejects `1.46e2` and `146.00001`, which `float()` accepts.
  This follows from Numerals.ParseFixed4 above.
- Numerals.FloatStr: `str(float(...))` is modelled as the exact decimal text with
  redundant zeros removed. It agrees with Python for up to 15 significant digits and
  magnitudes from 0.0001 up to, but excluding, 1e16. Python prints smaller and larger
  values in exponent form, such as `1e-05` and `1e+16`; no CTCSS tone is affected.
  Longer or exponent-form input can differ: Python rounds `100.00000000000000001` to
  `100.0`, and the model does not.
- Validators.EncodeCtcss: a tone typed with an exponent, such as `6.7e1`, is rejected.
  Python accepts it. This follows from Numerals.FloatStr above.
- Text.Lower: only ASCII letters are lower-cased. Python also lower-cases other scripts,
  which cannot turn a word into "enable", "disable", "open" or "close".
- Numerals.ParseInt: only ASCII digits are read. Python's `int()` also takes other
  Unicode decimal digits.
- Numerals.ParseDecimal: only ASCII digits are read. Python's `float()` also takes other
  Unicode decimal digits, such as Arabic-Indic ones.
- Validators.TypeFrequency: a frequency written in non-ASCII decimal digits is refused,
  while the program accepts it. This follows from Numerals.ParseDecimal above.
- Validators.EncodeCtcss: a tone written in non-ASCII decimal digits is refused, while
  the program accepts it. This follows from Numerals.ParseDecimal above.
- Validators.TypeFrequency: NotANumber and OutOfRange are one exception in the program.
  So are BadDirection and UnknownCode in Validators.EncodeDcs. Each bare
  `argparse.ArgumentError` actually raises TypeError, because the class needs two
  arguments; argparse reports that as an invalid value, so the argument is rejected
  either way. The model names the cause instead of the exception.
- Link.GroupFieldsRead: offsets are whole multiples of 0.0001 MHz. The program reads
  `--offset` with `float()`, and a finer offset such as 0.00001 is non-zero at
  sa818.py:132 yet prints the same `.4f` text as the receive frequency. This is not
  modelled.
- Link.GroupSimplex: holds for offsets in whole multiples of 0.0001 MHz only, for the
  reason given in the Link.GroupFieldsRead line above.
- Validators.EncodeDcs: an empty code makes `code[-1]` raise IndexError rather than an
  argument error. The model names this case EmptyCode.

## Findings

| source | as written | input that shows it | evidently intended | confidence | as-written member | corrected member |
|---|---|---|---|---|---|---|
| sa818.py:300-303 | `parg.lower() in "open"` is a substring test | `--tail ""`, `--tail pe` and `--tail E` mean open; `--tail los` means close | only the words "open" and "close", in any letter case | high (not executed) | Validators.OpenCloseAsWrittenTakesFragments | Validators.OpenClose |
