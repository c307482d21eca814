/** llvm/src/cli.rs: option values, and the scan of an argument list against an option surface. */
module CliParse {
  import opened Prelude
  import opened CliDescriptor

  type Arg = seq<u8>

  // ---- values ----

  /** An f64 is its bits; which texts parse as one, and to what, is given by a table. */
  type FloatTable = map<Arg, u64>

  datatype Payload =
    | IntegerValue(value: i64)
    | FloatValue(bits: u64)
    | BoolValue(flag: bool)
    | TextValue(text: Arg)
    | OctetsValue(octets: Arg)
    | NullValue

  datatype Entry =
    | Scalar(ty: u8, value: Payload)
    | Carrier(ty: u8, option: Option<Payload>)
    | ListEntry(ty: u8, items: seq<Payload>)

  datatype ParseError =
    | UnknownOption(arg: Arg)
    | MissingValue(option: Arg)
    | InvalidValue(raw: Arg)
    | MissingOperand(binding: Str)
    | UnexpectedOperand(extra: Arg)

  const NUMERUS: u8 := 1
  const FRACTUS: u8 := 2
  const BIVALENS: u8 := 3
  const OCTETI: u8 := 4
  const LISTA_NUMERUS: u8 := 7

  /** `str::parse::<i64>`: an optional sign, then digits, within range. */
  function ParseI64(raw: Arg): Option<i64> {
    var signed := raw != [] && (raw[0] == 0x2B || raw[0] == 0x2D);
    var digits := if signed then raw[1..] else raw;
    if digits == [] || !AllDigits(digits) then None
    else
      var v := (if signed && raw[0] == 0x2D then -1 else 1) * DecimalValue(digits);
      if -0x8000_0000_0000_0000 <= v < 0x8000_0000_0000_0000 then Some(v) else None
  }

  function Magnitude(v: int): nat { if v < 0 then -v else v }

  /** The texts of an integer: its digits after any leading zeros, `-` for a negative one, an optional `+` otherwise. */
  predicate Spells(raw: Arg, v: int, zeros: nat, sign: Arg) {
    && raw == sign + (LeadingZeros(zeros) + Digits(Magnitude(v)))
    && (v < 0 ==> sign == [0x2D]) && (v > 0 ==> sign == [] || sign == [0x2B])
    && (v == 0 ==> sign == [] || sign == [0x2B] || sign == [0x2D])
  }

  /** A text parses as an integer exactly when it spells it. */
  lemma ParseI64Iff(raw: Arg, v: i64)
    ensures ParseI64(raw) == Some(v) <==> exists zeros, sign :: Spells(raw, v, zeros, sign)
  {
    hide ParseI64, Spells;
    if ParseI64(raw) == Some(v) {
      ParsedSpells(raw, v);
    }
    if zeros: nat, sign :| Spells(raw, v, zeros, sign) {
      SpelledParses(raw, v, zeros, sign);
    }
  }

  lemma ParsedSpells(raw: Arg, v: i64)
    requires ParseI64(raw) == Some(v)
    ensures exists zeros, sign :: Spells(raw, v, zeros, sign)
  {
    hide AllDigits, DecimalValue, Digits;
    var signed := raw[0] == 0x2B || raw[0] == 0x2D;
    var sign, digits := if signed then raw[..1] else [], if signed then raw[1..] else raw;
    var zeros := NumeralsAreDigits(digits);
    assert raw == sign + digits;
    assert Spells(raw, v, zeros, sign);
  }

  lemma SpelledParses(raw: Arg, v: i64, zeros: nat, sign: Arg)
    requires Spells(raw, v, zeros, sign)
    ensures ParseI64(raw) == Some(v)
  {
    hide DecimalValue, Digits;
    var digits := LeadingZeros(zeros) + Digits(Magnitude(v));
    DigitsValue(Magnitude(v));
    LeadingZerosValue(zeros, Digits(Magnitude(v)));
    assert AllDigits(digits) && 0x30 <= digits[0] <= 0x39;
    if sign != [] {
      assert raw[1..] == digits;
    } else {
      assert raw == digits;
    }
  }

  const TRUE_TEXT: Arg := [0x74, 0x72, 0x75, 0x65]
  const FALSE_TEXT: Arg := [0x66, 0x61, 0x6C, 0x73, 0x65]

  function ParseBool(raw: Arg): Option<bool> {
    if raw == TRUE_TEXT then Some(true) else if raw == FALSE_TEXT then Some(false) else None
  }

  /** The payload of a raw argument for a scalar type tag; every tag not listed is text. */
  function ParsePayload(floats: FloatTable, ty: u8, raw: Arg): Option<Payload> {
    if ty == NUMERUS then
      var v :- ParseI64(raw);
      Some(IntegerValue(v))
    else if ty == FRACTUS then (if raw in floats then Some(FloatValue(floats[raw])) else None)
    else if ty == BIVALENS then
      var v :- ParseBool(raw);
      Some(BoolValue(v))
    else if ty == OCTETI then Some(OctetsValue(raw))
    else Some(TextValue(raw))
  }

  /** `parse_option_value`: an option without a default yields an option carrier. */
  function ParseOptionValue(floats: FloatTable, o: Opt, raw: Arg): Option<Entry> {
    var v :- ParsePayload(floats, o.ty, raw);
    Some(if o.default.None? then Carrier(o.ty, Some(v)) else Scalar(o.ty, v))
  }

  /** `parse_operand_payload` also parses the items of a numeric list. */
  function ParseOperandPayload(floats: FloatTable, o: Operand, raw: Arg): Option<Payload> {
    if o.ty == LISTA_NUMERUS then
      var v :- ParseI64(raw);
      Some(IntegerValue(v))
    else ParsePayload(floats, o.ty, raw)
  }

  /** `default_value_entry` */
  function OptionDefault(ty: u8, d: Default): Payload {
    if ty == NUMERUS && d.IntegerDefault? then IntegerValue(d.value)
    else if ty == FRACTUS && d.FloatDefault? then FloatValue(d.bits)
    else if ty == BIVALENS && d.BoolDefault? then BoolValue(d.flag)
    else if ty == OCTETI && d.TextDefault? then OctetsValue(d.text)
    else if d.TextDefault? || d.ExprDefault? then TextValue(d.text)
    else if ty == NUMERUS then IntegerValue(0)
    else if ty == FRACTUS then FloatValue(0)
    else if ty == BIVALENS then BoolValue(false)
    else if d.NilDefault? then (if ty == OCTETI then OctetsValue([]) else TextValue([]))
    else IntegerValue(0)
  }

  /** `default_value_payload` */
  function OperandDefault(ty: u8, d: Default): Payload {
    if ty == NUMERUS && d.IntegerDefault? then IntegerValue(d.value)
    else if ty == FRACTUS && d.FloatDefault? then FloatValue(d.bits)
    else if ty == BIVALENS && d.BoolDefault? then BoolValue(d.flag)
    else if ty == OCTETI && d.TextDefault? then OctetsValue(d.text)
    else if d.TextDefault? then TextValue(d.text)
    else if ty == NUMERUS then IntegerValue(0)
    else if ty == FRACTUS then FloatValue(0)
    else if ty == BIVALENS then BoolValue(false)
    else TextValue([])
  }

  /** `initial_option_entry` */
  function InitialEntry(o: Opt): Entry {
    if o.flag then Scalar(o.ty, BoolValue(o.default == Some(BoolDefault(true))))
    else if o.default.Some? then Scalar(o.ty, OptionDefault(o.ty, o.default.value))
    else Carrier(o.ty, None)
  }

  function InitialEntries(opts: seq<Opt>): seq<Entry> {
    seq(|opts|, i requires 0 <= i < |opts| => InitialEntry(opts[i]))
  }

  // ---- those values, by the kind of default and by the steps of the code ----

  /** The type tags of the record, and the words and marks the scan compares with. */
  lemma TagsAndWords()
    ensures NUMERUS == 1 && FRACTUS == 2 && BIVALENS == 3 && OCTETI == 4 && LISTA_NUMERUS == 7
    ensures IsWord(TRUE_TEXT, "true") && IsWord(FALSE_TEXT, "false")
    ensures IsWord(DASHES, "--") && IsWord([EQUALS], "=") && IsWord(HELP, "--help") && IsWord(SHORT_HELP, "-h")
    ensures IsWord(VERSION_OPTION, "--version")
  {
  }

  predicate IsWord(bytes: Arg, word: string) {
    |bytes| == |word| && forall i | 0 <= i < |word| :: bytes[i] == word[i] as int
  }

  /** A typed default keeps its value; otherwise texts stay texts and everything else is the zero of its type. */
  method DefaultValue(ty: u8, d: Default) returns (p: Payload)
    ensures p == OptionDefault(ty, d)
  {
    var zero := if ty == NUMERUS then IntegerValue(0) else if ty == FRACTUS then FloatValue(0)
                else if ty == BIVALENS then BoolValue(false) else IntegerValue(0);
    match d {
      case IntegerDefault(v) => p := if ty == NUMERUS then IntegerValue(v) else zero;
      case FloatDefault(bits) => p := if ty == FRACTUS then FloatValue(bits) else zero;
      case BoolDefault(flag) => p := if ty == BIVALENS then BoolValue(flag) else zero;
      case TextDefault(text) => p := if ty == OCTETI then OctetsValue(text) else TextValue(text);
      case ExprDefault(text) => p := TextValue(text);
      case NilDefault =>
        if ty == NUMERUS || ty == FRACTUS || ty == BIVALENS {
          p := zero;
        } else {
          p := if ty == OCTETI then OctetsValue([]) else TextValue([]);
        }
    }
  }

  method OperandDefaultValue(ty: u8, d: Default) returns (p: Payload)
    ensures p == OperandDefault(ty, d)
  {
    var zero := if ty == NUMERUS then IntegerValue(0) else if ty == FRACTUS then FloatValue(0)
                else if ty == BIVALENS then BoolValue(false) else TextValue([]);
    match d {
      case IntegerDefault(v) => p := if ty == NUMERUS then IntegerValue(v) else zero;
      case FloatDefault(bits) => p := if ty == FRACTUS then FloatValue(bits) else zero;
      case BoolDefault(flag) => p := if ty == BIVALENS then BoolValue(flag) else zero;
      case TextDefault(text) => p := if ty == OCTETI then OctetsValue(text) else TextValue(text);
      case _ => p := zero;
    }
  }

  /** `initial_option_entry`: a flag is on only by a boolean default; an option without default is an empty carrier. */
  method InitialOptionEntry(o: Opt) returns (e: Entry)
    ensures e == InitialEntry(o)
  {
    if o.flag {
      var enabled := o.default.Some? && o.default.value.BoolDefault? && o.default.value.flag;
      return Scalar(o.ty, BoolValue(enabled));
    }
    match o.default {
      case Some(d) =>
        var p := DefaultValue(o.ty, d);
        return Scalar(o.ty, p);
      case None => return Carrier(o.ty, None);
    }
  }

  /** The value of a scalar type, by its tag. */
  method ScalarValue(floats: FloatTable, ty: u8, raw: Arg) returns (p: Option<Payload>)
    ensures p == ParsePayload(floats, ty, raw)
  {
    match ty {
      case 1 =>
        var v := ParseI64(raw);
        return if v.Some? then Some(IntegerValue(v.value)) else None;
      case 2 => return if raw in floats then Some(FloatValue(floats[raw])) else None;
      case 3 =>
        if raw == TRUE_TEXT {
          return Some(BoolValue(true));
        }
        return if raw == FALSE_TEXT then Some(BoolValue(false)) else None;
      case 4 => return Some(OctetsValue(raw));
      case _ => return Some(TextValue(raw));
    }
  }

  /** `parse_operand_payload` */
  method OperandPayload(floats: FloatTable, o: Operand, raw: Arg) returns (p: Option<Payload>)
    ensures p == ParseOperandPayload(floats, o, raw)
  {
    if o.ty == 7 {
      var v := ParseI64(raw);
      return if v.Some? then Some(IntegerValue(v.value)) else None;
    }
    p := ScalarValue(floats, o.ty, raw);
  }

  // ---- options ----

  const DASHES: Arg := [0x2D, 0x2D]
  const EQUALS: u8 := 0x3D
  const HELP: Arg := [0x2D, 0x2D, 0x68, 0x65, 0x6C, 0x70]
  const SHORT_HELP: Arg := [0x2D, 0x68]
  const VERSION_OPTION: Arg := [0x2D, 0x2D, 0x76, 0x65, 0x72, 0x73, 0x69, 0x6F, 0x6E]

  /** The position of the first `=`, or the length. */
  function SplitAt(arg: Arg): (i: nat)
    ensures i <= |arg|
    ensures EQUALS !in arg[..i] && (i < |arg| ==> arg[i] == EQUALS)
  {
    if arg == [] || arg[0] == EQUALS then 0
    else
      var i := 1 + SplitAt(arg[1..]);
      assert arg[..i] == [arg[0]] + arg[1..][..i - 1];
      i
  }

  function LongName(arg: Arg): Arg { arg[..SplitAt(arg)] }

  function InlineValue(arg: Arg): Option<Arg> {
    if SplitAt(arg) < |arg| then Some(arg[SplitAt(arg) + 1..]) else None
  }

  predicate IsLong(o: Opt, name: Arg) { o.long.Some? && name == DASHES + o.long.value }

  predicate IsShort(o: Opt, arg: Arg) { o.short.Some? && arg == [0x2D] + o.short.value }

  /** The first option with this long name, or the number of options. */
  function FindLong(opts: seq<Opt>, name: Arg): (i: nat)
    ensures i <= |opts| && (i < |opts| ==> IsLong(opts[i], name)) && forall j | 0 <= j < i :: !IsLong(opts[j], name)
  {
    if opts == [] || IsLong(opts[0], name) then 0 else 1 + FindLong(opts[1..], name)
  }

  function FindShort(opts: seq<Opt>, arg: Arg): (i: nat)
    ensures i <= |opts| && (i < |opts| ==> IsShort(opts[i], arg)) && forall j | 0 <= j < i :: !IsShort(opts[j], arg)
  {
    if opts == [] || IsShort(opts[0], arg) then 0 else 1 + FindShort(opts[1..], arg)
  }

  /** What an option argument yields: which entry it sets, to what, and how many following arguments it takes. */
  datatype Applied = Sets(entry: Entry, taken: nat) | Fails(error: ParseError)

  /** `apply_option`: a flag ignores an inline value; otherwise the value is inline or the next argument. */
  function Apply(floats: FloatTable, o: Opt, name: Arg, inlined: Option<Arg>, following: seq<Arg>): (r: Applied)
    ensures r.Sets? ==> r.taken <= 1 && r.taken <= |following|
  {
    if o.flag then Sets(Scalar(o.ty, BoolValue(true)), 0)
    else if inlined.None? && following == [] then Fails(MissingValue(name))
    else
      var raw := if inlined.Some? then inlined.value else following[0];
      var e := ParseOptionValue(floats, o, raw);
      if e.None? then Fails(InvalidValue(raw)) else Sets(e.value, if inlined.Some? then 0 else 1)
  }

  /** The option an argument names, or the number of options. */
  function Named(opts: seq<Opt>, arg: Arg): (i: nat)
    ensures i <= |opts|
  {
    if DASHES <= arg then FindLong(opts, LongName(arg)) else FindShort(opts, arg)
  }

  function ApplyArg(floats: FloatTable, o: Opt, arg: Arg, following: seq<Arg>): (r: Applied)
    ensures r.Sets? ==> r.taken <= 1 && r.taken <= |following|
  {
    if DASHES <= arg then Apply(floats, o, LongName(arg), InlineValue(arg), following)
    else Apply(floats, o, arg, None, following)
  }

  // ---- the scan ----

  /** The value options of a command, whether it has a version, and how float texts parse. */
  datatype Surface = Surface(floats: FloatTable, opts: seq<Opt>, hasVersion: bool)

  datatype Scan =
    | Scanned(entries: seq<Entry>, positionals: seq<Arg>)
    | ScanFailed(error: ParseError)
    | HelpShown
    | VersionShown

  predicate IsHelp(arg: Arg) { arg == HELP || arg == SHORT_HELP }

  predicate IsOption(arg: Arg) { DASHES <= arg || (|arg| > 1 && arg[0] == 0x2D) }

  /** The argument loop of `parse_surface_with_entries`. */
  function ScanArgs(s: Surface, entries: seq<Entry>, positionals: seq<Arg>, args: seq<Arg>): Scan
    requires |entries| == |s.opts|
    decreases |args|
  {
    if args == [] then Scanned(entries, positionals)
    else if args[0] == DASHES then Scanned(entries, positionals + args[1..])
    else if IsHelp(args[0]) then HelpShown
    else if s.hasVersion && args[0] == VERSION_OPTION then VersionShown
    else if IsOption(args[0]) then
      var i := Named(s.opts, args[0]);
      if i == |s.opts| then ScanFailed(UnknownOption(args[0]))
      else
        match ApplyArg(s.floats, s.opts[i], args[0], args[1..])
        case Fails(e) => ScanFailed(e)
        case Sets(entry, taken) => ScanArgs(s, entries[i := entry], positionals, args[1 + taken..])
    else ScanArgs(s, entries, positionals + [args[0]], args[1..])
  }

  /** `apply_option`: the entry and the position of the last argument it used. */
  method ApplyOption(floats: FloatTable, o: Opt, name: Arg, inlined: Option<Arg>, args: seq<Arg>, index: nat)
    returns (r: Result<(Entry, nat), ParseError>)
    requires index < |args|
    ensures r == match Apply(floats, o, name, inlined, args[index + 1..])
                 case Fails(e) => Err(e)
                 case Sets(entry, taken) => Ok((entry, index + taken))
  {
    if o.flag {
      return Ok((Scalar(o.ty, BoolValue(true)), index));
    }
    var raw, last := [], index;
    if inlined.Some? {
      raw := inlined.value;
    } else {
      last := index + 1;
      if last >= |args| {
        return Err(MissingValue(name));
      }
      raw := args[last];
    }
    var value := ScalarValue(floats, o.ty, raw);
    if value.None? {
      return Err(InvalidValue(raw));
    }
    return Ok((if o.default.None? then Carrier(o.ty, Some(value.value)) else Scalar(o.ty, value.value), last));
  }

  /** `parse_long_option` and `parse_short_option`: the first option with the name, applied. */
  method ApplyNamed(s: Surface, args: seq<Arg>, index: nat) returns (r: Result<(nat, Entry, nat), ParseError>)
    requires index < |args|
    ensures var i := Named(s.opts, args[index]);
      if i == |s.opts| then r == Err(UnknownOption(args[index]))
      else r == match ApplyArg(s.floats, s.opts[i], args[index], args[index + 1..])
                case Fails(e) => Err(e)
                case Sets(entry, taken) => Ok((i, entry, index + taken))
  {
    hide Apply, SplitAt;
    var arg := args[index];
    var name, inlined := arg, None;
    if DASHES <= arg {
      name, inlined := LongName(arg), InlineValue(arg);
    }
    for i := 0 to |s.opts|
      invariant Named(s.opts, arg) >= i
    {
      var o := s.opts[i];
      if DASHES <= arg && o.long.Some? && name == DASHES + o.long.value {
        assert Named(s.opts, arg) == i;
        var applied := ApplyOption(s.floats, o, name, inlined, args, index);
        return if applied.Ok? then Ok((i, applied.value.0, applied.value.1)) else Err(applied.error);
      }
      if !(DASHES <= arg) && o.short.Some? && arg == [0x2D] + o.short.value {
        assert Named(s.opts, arg) == i;
        var applied := ApplyOption(s.floats, o, arg, None, args, index);
        return if applied.Ok? then Ok((i, applied.value.0, applied.value.1)) else Err(applied.error);
      }
    }
    return Err(UnknownOption(arg));
  }

  /** The loop itself, over an index and an entry table written in place. */
  method ScanArguments(s: Surface, entries: array<Entry>, args: seq<Arg>)
    returns (r: Scan)
    requires entries.Length == |s.opts|
    modifies entries
    ensures r == ScanArgs(s, old(entries[..]), [], args)
    ensures r.Scanned? ==> r.entries == entries[..]
  {
    hide ApplyArg, Named;
    TagsAndWords();
    var positionals: seq<Arg> := [];
    var index := 0;
    while index < |args|
      invariant 0 <= index <= |args|
      invariant ScanArgs(s, old(entries[..]), [], args)
             == ScanArgs(s, entries[..], positionals, args[index..])
    {
      var arg := args[index];
      assert args[index..][1..] == args[index + 1..];
      if arg == DASHES {
        return Scanned(entries[..], positionals + args[index + 1..]);
      }
      if arg == HELP || arg == SHORT_HELP {
        return HelpShown;
      }
      if s.hasVersion && arg == VERSION_OPTION {
        return VersionShown;
      }
      if DASHES <= arg || (|arg| > 1 && arg[0] == 0x2D) {
        var applied := ApplyNamed(s, args, index);
        if applied.Err? {
          return ScanFailed(applied.error);
        }
        var (i, entry, last) := applied.value;
        assert args[index..][1 + (last - index)..] == args[last + 1..];
        ghost var before := entries[..];
        entries[i] := entry;
        assert entries[..] == before[i := entry];
        index := last + 1;
        continue;
      }
      positionals := positionals + [arg];
      index := index + 1;
    }
    assert args[index..] == [];
    return Scanned(entries[..], positionals);
  }
}
