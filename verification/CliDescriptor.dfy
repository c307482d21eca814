/** The v1 command-line descriptor of llvm/src/cli.rs: its byte layout, and what decoding reads back. */
module CliDescriptor {
  import opened Prelude
  import opened DeviceIdentity

  // ---- strings ----

  predicate Continues(b: seq<u8>, i: nat, low: u8, high: u8) {
    i < |b| && low <= b[i] <= high
  }

  /** The length of the well-formed UTF-8 sequence in front, or 0 (RFC 3629, section 4). */
  function SequenceLength(b: seq<u8>): (n: nat)
    ensures n <= |b|
  {
    if b == [] then 0
    else if b[0] < 0x80 then 1
    else if 0xC2 <= b[0] <= 0xDF && Continues(b, 1, 0x80, 0xBF) then 2
    else if Continues(b, 1, if b[0] == 0xE0 then 0xA0 else 0x80, if b[0] == 0xED then 0x9F else 0xBF)
         && 0xE0 <= b[0] <= 0xEF && Continues(b, 2, 0x80, 0xBF) then 3
    else if Continues(b, 1, if b[0] == 0xF0 then 0x90 else 0x80, if b[0] == 0xF4 then 0x8F else 0xBF)
         && 0xF0 <= b[0] <= 0xF4 && Continues(b, 2, 0x80, 0xBF) && Continues(b, 3, 0x80, 0xBF) then 4
    else 0
  }

  /** `String::from_utf8` accepts the bytes. */
  predicate ValidUtf8(b: seq<u8>)
    decreases |b|
  {
    b == [] || (SequenceLength(b) > 0 && ValidUtf8(b[SequenceLength(b)..]))
  }

  /** A Unicode scalar value: a code point that is no surrogate. */
  predicate IsScalar(c: nat) { c < 0xD800 || 0xE000 <= c < 0x11_0000 }

  /** The UTF-8 bytes of a scalar value (RFC 3629, section 3). */
  function Encoded(c: nat): seq<u8>
    requires IsScalar(c)
  {
    if c < 0x80 then [c]
    else if c < 0x800 then [0xC0 + c / 0x40, 0x80 + c % 0x40]
    else if c < 0x1_0000 then [0xE0 + c / 0x1000, 0x80 + c / 0x40 % 0x40, 0x80 + c % 0x40]
    else [0xF0 + c / 0x4_0000, 0x80 + c / 0x1000 % 0x40, 0x80 + c / 0x40 % 0x40, 0x80 + c % 0x40]
  }

  /** `b` is the encoding of some scalar values, one after the other. */
  ghost predicate Encodes(b: seq<u8>, cs: seq<nat>) {
    if cs == [] then b == []
    else IsScalar(cs[0]) && Encoded(cs[0]) <= b && Encodes(b[|Encoded(cs[0])|..], cs[1..])
  }

  /** An encoded scalar value is a well-formed sequence, whatever follows. */
  lemma EncodedLength(b: seq<u8>, c: nat)
    requires IsScalar(c) && Encoded(c) <= b
    ensures SequenceLength(b) == |Encoded(c)|
  {
    var e := Encoded(c);
    assert forall i | 0 <= i < |e| :: b[i] == e[i];
  }

  /** Every well-formed sequence encodes a scalar value. */
  lemma SequenceEncodes(b: seq<u8>)
    requires SequenceLength(b) > 0
    ensures exists c :: IsScalar(c) && Encoded(c) <= b && |Encoded(c)| == SequenceLength(b)
  {
    var n := SequenceLength(b);
    if n == 1 {
      assert Encoded(b[0]) == b[..1];
    } else if n == 2 {
      var high: nat, low: nat := b[0] - 0xC0, b[1] - 0x80;
      var c: nat := high * 0x40 + low;
      assert c / 0x40 == high && c % 0x40 == low;
      assert IsScalar(c) && Encoded(c) == b[..2];
    } else if n == 3 {
      ThreeBytes(b[0], b[1], b[2]);
      assert b[..3] == [b[0], b[1], b[2]];
    } else {
      FourBytes(b[0], b[1], b[2], b[3]);
      assert b[..4] == [b[0], b[1], b[2], b[3]];
    }
  }

  lemma ThreeBytes(b0: u8, b1: u8, b2: u8)
    requires 0xE0 <= b0 <= 0xEF && 0x80 <= b1 <= 0xBF && 0x80 <= b2 <= 0xBF
    requires (b0 == 0xE0 ==> b1 >= 0xA0) && (b0 == 0xED ==> b1 <= 0x9F)
    ensures exists c :: IsScalar(c) && Encoded(c) == [b0, b1, b2]
  {
    var x: nat, y: nat, z: nat := b0 - 0xE0, b1 - 0x80, b2 - 0x80;
    var high: nat := x * 0x40 + y;
    var c: nat := high * 0x40 + z;
    assert c / 0x40 == high && c % 0x40 == b2 - 0x80;
    assert high / 0x40 == b0 - 0xE0 && high % 0x40 == b1 - 0x80;
    assert c / 0x1000 == c / 0x40 / 0x40;
    assert IsScalar(c) && Encoded(c) == [b0, b1, b2];
  }

  lemma FourBytes(b0: u8, b1: u8, b2: u8, b3: u8)
    requires 0xF0 <= b0 <= 0xF4 && 0x80 <= b1 <= 0xBF && 0x80 <= b2 <= 0xBF && 0x80 <= b3 <= 0xBF
    requires (b0 == 0xF0 ==> b1 >= 0x90) && (b0 == 0xF4 ==> b1 <= 0x8F)
    ensures exists c :: IsScalar(c) && Encoded(c) == [b0, b1, b2, b3]
  {
    var x: nat, y: nat, z: nat, w: nat := b0 - 0xF0, b1 - 0x80, b2 - 0x80, b3 - 0x80;
    var top: nat := x * 0x40 + y;
    var high: nat := top * 0x40 + z;
    var c: nat := high * 0x40 + w;
    assert c / 0x40 == high && c % 0x40 == b3 - 0x80;
    assert high / 0x40 == top && high % 0x40 == b2 - 0x80;
    assert top / 0x40 == b0 - 0xF0 && top % 0x40 == b1 - 0x80;
    assert c / 0x1000 == c / 0x40 / 0x40 && c / 0x4_0000 == c / 0x40 / 0x40 / 0x40;
    assert IsScalar(c) && Encoded(c) == [b0, b1, b2, b3];
  }

  ghost predicate IsEncoding(b: seq<u8>) {
    exists cs :: Encodes(b, cs)
  }

  lemma EncodingBy(b: seq<u8>, cs: seq<nat>)
    requires Encodes(b, cs)
    ensures IsEncoding(b)
  {
  }

  /** Exactly the encodings of scalar values are accepted: no overlong form, surrogate or stray byte. */
  lemma {:induction false} ValidUtf8Iff(b: seq<u8>)
    ensures ValidUtf8(b) <==> IsEncoding(b)
    decreases |b|
  {
    hide SequenceLength, Encoded;
    if b == [] {
      EncodingBy(b, []);
    } else {
      if ValidUtf8(b) {
        SequenceEncodes(b);
        var c :| IsScalar(c) && Encoded(c) <= b && |Encoded(c)| == SequenceLength(b);
        ValidUtf8Iff(b[SequenceLength(b)..]);
        var cs :| Encodes(b[SequenceLength(b)..], cs);
        assert ([c] + cs)[1..] == cs;
        EncodingBy(b, [c] + cs);
      }
      if cs :| Encodes(b, cs) {
        EncodedLength(b, cs[0]);
        EncodedNotEmpty(cs[0]);
        EncodingBy(b[SequenceLength(b)..], cs[1..]);
        ValidUtf8Iff(b[SequenceLength(b)..]);
      }
    }
  }

  lemma EncodedNotEmpty(c: nat)
    requires IsScalar(c)
    ensures Encoded(c) != []
  {
  }

  /** A descriptor string: UTF-8 with a u16 length. */
  type Str = t: seq<u8> | |t| < 0x1_0000 && ValidUtf8(t) witness []

  // ---- the decoded descriptor ----

  datatype Default =
    | TextDefault(text: Str)
    | IntegerDefault(value: i64)
    | FloatDefault(bits: u64)
    | BoolDefault(flag: bool)
    | NilDefault
    | ExprDefault(text: Str)

  datatype Opt = Opt(
    ty: u8,
    flag: bool,
    short: Option<Str>,
    long: Option<Str>,
    description: Option<Str>,
    default: Option<Default>,
    binding: Str)

  datatype Operand = Operand(ty: u8, rest: bool, description: Option<Str>, default: Option<Default>, binding: Str)

  type Opts = s: seq<Opt> | |s| < 0x1_0000 witness []

  type Operands = s: seq<Operand> | |s| < 0x1_0000 witness []

  type Strs = s: seq<Str> | |s| < 0x100 witness []

  datatype Command = Command(path: Strs, aliases: Strs, options: Opts, operands: Operands, description: Option<Str>)

  type Commands = s: seq<Command> | |s| < 0x1_0000 witness []

  datatype Exit = NoExit | FixedExit(code: i64) | BindingExit(binding: Str) | FieldExit(field: Str) | UnsupportedExit

  datatype Descriptor = Descriptor(
    name: Str,
    mode: u8,
    version: Option<Str>,
    description: Option<Str>,
    exit: Exit,
    globalOptions: Opts,
    globalOperands: Operands,
    options: Opts,
    operands: Operands,
    commands: Commands)

  // ---- layout ----

  function PutU16(v: u16, k: seq<u8>): seq<u8> { LeBytes(v, 2) + k }

  function PutI64(v: i64, k: seq<u8>): seq<u8> {
    PutU64(if v < 0 then v + 0x1_0000_0000_0000_0000 else v, k)
  }

  function PutText(s: Str, k: seq<u8>): seq<u8> { PutU16(|s|, s + k) }

  function PutOptText(s: Option<Str>, k: seq<u8>): seq<u8> {
    PutBool(s.Some?, if s.Some? then PutText(s.value, k) else k)
  }

  function PutDefault(d: Default, k: seq<u8>): seq<u8> {
    match d
    case TextDefault(s) => PutByte(0, PutText(s, k))
    case IntegerDefault(v) => PutByte(1, PutI64(v, k))
    case FloatDefault(bits) => PutByte(2, PutU64(bits, k))
    case BoolDefault(flag) => PutByte(3, PutBool(flag, k))
    case NilDefault => PutByte(4, k)
    case ExprDefault(s) => PutByte(5, PutText(s, k))
  }

  function PutOptDefault(d: Option<Default>, k: seq<u8>): seq<u8> {
    PutBool(d.Some?, if d.Some? then PutDefault(d.value, k) else k)
  }

  function PutOpt(o: Opt, k: seq<u8>): seq<u8> {
    PutByte(o.ty, PutBool(o.flag, PutOptText(o.short, PutOptText(o.long, PutOptText(o.description,
      PutOptDefault(o.default, PutText(o.binding, k)))))))
  }

  function PutOptList(os: seq<Opt>, k: seq<u8>): seq<u8> {
    if os == [] then k else PutOpt(os[0], PutOptList(os[1..], k))
  }

  function PutOpts(os: Opts, k: seq<u8>): seq<u8> { PutU16(|os|, PutOptList(os, k)) }

  function PutOperand(o: Operand, k: seq<u8>): seq<u8> {
    PutByte(o.ty, PutBool(o.rest, PutOptText(o.description, PutOptDefault(o.default, PutText(o.binding, k)))))
  }

  function PutOperandList(os: seq<Operand>, k: seq<u8>): seq<u8> {
    if os == [] then k else PutOperand(os[0], PutOperandList(os[1..], k))
  }

  function PutOperands(os: Operands, k: seq<u8>): seq<u8> { PutU16(|os|, PutOperandList(os, k)) }

  function PutTextList(ss: seq<Str>, k: seq<u8>): seq<u8> {
    if ss == [] then k else PutText(ss[0], PutTextList(ss[1..], k))
  }

  function PutTexts(ss: Strs, k: seq<u8>): seq<u8> { PutByte(|ss|, PutTextList(ss, k)) }

  /** Parts of the layout that decoding reads past. */
  datatype Unread = Unread(functionName: Str, argsBinding: Option<Str>)

  function PutCommand(c: Command, u: Unread, k: seq<u8>): seq<u8> {
    PutTexts(c.path, PutTexts(c.aliases, PutOptText(c.description, PutText(u.functionName, PutOptText(u.argsBinding,
      PutOpts(c.options, PutOperands(c.operands, k)))))))
  }

  function PutCommandList(cs: seq<Command>, us: seq<Unread>, k: seq<u8>): seq<u8>
    requires |cs| == |us|
  {
    if cs == [] then k else PutCommand(cs[0], us[0], PutCommandList(cs[1..], us[1..], k))
  }

  /** `object` is the unread half of a field exit. */
  function PutExit(e: Exit, objectName: Str, k: seq<u8>): seq<u8> {
    match e
    case NoExit => PutByte(0, k)
    case FixedExit(code) => PutByte(1, PutI64(code, k))
    case BindingExit(binding) => PutByte(2, PutText(binding, k))
    case FieldExit(field) => PutByte(3, PutText(objectName, PutText(field, k)))
    case UnsupportedExit => PutByte(4, k)
  }

  function PutIfSome(s: Option<Str>, k: seq<u8>): seq<u8> { if s.Some? then PutText(s.value, k) else k }

  /** The magic "FCLI". */
  const MAGIC: seq<u8> := [0x46, 0x43, 0x4C, 0x49]

  const VERSION: u8 := 1

  /** A descriptor starts with "FCLI" and the version of this layout. */
  lemma MagicSpelling(i: nat)
    requires i < 4
    ensures |MAGIC| == 4 && MAGIC[i] == ("FCLI"[i] as int) && VERSION == 1
  {
  }

  function PutHead(d: Descriptor, objectName: Str, k: seq<u8>): seq<u8> {
    MAGIC + PutByte(VERSION, PutByte(d.mode, PutBool(d.version.Some?, PutBool(d.description.Some?,
      PutText(d.name, PutIfSome(d.version, PutIfSome(d.description, PutExit(d.exit, objectName, k))))))))
  }

  function PutBody(d: Descriptor, us: seq<Unread>, k: seq<u8>): seq<u8>
    requires |us| == |d.commands|
  {
    PutOpts(d.globalOptions, PutOperands(d.globalOperands, PutOpts(d.options, PutOperands(d.operands,
      PutU16(|d.commands|, PutCommandList(d.commands, us, k))))))
  }

  /** A whole descriptor, followed by `k`. */
  function PutDescriptor(d: Descriptor, objectName: Str, us: seq<Unread>, k: seq<u8>): seq<u8>
    requires |us| == |d.commands|
  {
    PutHead(d, objectName, PutBody(d, us, k))
  }

  // ---- decoding ----

  function GetU16(b: seq<u8>): Decoded<u16> {
    if |b| < 2 then None
    else
      LeBytesOfFromLe(b[..2]);
      Pow256Values();
      Some((FromLe(b[..2]), b[2..]))
  }

  function GetI64(b: seq<u8>): Decoded<i64> {
    var (v, k) :- GetU64(b);
    Some((if v >= 0x8000_0000_0000_0000 then v - 0x1_0000_0000_0000_0000 else v, k))
  }

  /** A byte as a flag: anything but zero is set. */
  function GetFlag(b: seq<u8>): Decoded<bool> {
    var (v, k) :- GetByte(b);
    Some((v != 0, k))
  }

  function GetText(b: seq<u8>): Decoded<Str> {
    var (n, k) :- GetU16(b);
    if |k| < n || !ValidUtf8(k[..n]) then None else Some((k[..n], k[n..]))
  }

  function GetOptText(b: seq<u8>): Decoded<Option<Str>> {
    var (present, k) :- GetFlag(b);
    if present then var (s, k1) :- GetText(k); Some((Some(s), k1)) else Some((None, k))
  }

  function GetDefault(b: seq<u8>): Decoded<Default> {
    var (tag, k) :- GetByte(b);
    if tag == 0 then var (s, k1) :- GetText(k); Some((TextDefault(s), k1))
    else if tag == 1 then var (v, k1) :- GetI64(k); Some((IntegerDefault(v), k1))
    else if tag == 2 then var (v, k1) :- GetU64(k); Some((FloatDefault(v), k1))
    else if tag == 3 then var (v, k1) :- GetFlag(k); Some((BoolDefault(v), k1))
    else if tag == 4 then Some((NilDefault, k))
    else if tag == 5 then var (s, k1) :- GetText(k); Some((ExprDefault(s), k1))
    else None
  }

  function GetOptDefault(b: seq<u8>): Decoded<Option<Default>> {
    var (present, k) :- GetFlag(b);
    if present then var (d, k1) :- GetDefault(k); Some((Some(d), k1)) else Some((None, k))
  }

  function GetOpt(b: seq<u8>): Decoded<Opt> {
    var (ty, k1) :- GetByte(b);
    var (flag, k2) :- GetFlag(k1);
    var (short, k3) :- GetOptText(k2);
    var (long, k4) :- GetOptText(k3);
    var (description, k5) :- GetOptText(k4);
    var (default, k6) :- GetOptDefault(k5);
    var (binding, k7) :- GetText(k6);
    Some((Opt(ty, flag, short, long, description, default, binding), k7))
  }

  function GetOptList(n: nat, b: seq<u8>): (r: Decoded<seq<Opt>>)
    ensures r.Some? ==> |r.value.0| == n
  {
    if n == 0 then Some(([], b))
    else
      var (o, k) :- GetOpt(b);
      var (os, k1) :- GetOptList(n - 1, k);
      Some(([o] + os, k1))
  }

  function GetOpts(b: seq<u8>): Decoded<Opts> {
    var (n, k) :- GetU16(b);
    var (os, k1) :- GetOptList(n, k);
    Some((os, k1))
  }

  function GetOperand(b: seq<u8>): Decoded<Operand> {
    var (ty, k1) :- GetByte(b);
    var (rest, k2) :- GetFlag(k1);
    var (description, k3) :- GetOptText(k2);
    var (default, k4) :- GetOptDefault(k3);
    var (binding, k5) :- GetText(k4);
    Some((Operand(ty, rest, description, default, binding), k5))
  }

  function GetOperandList(n: nat, b: seq<u8>): (r: Decoded<seq<Operand>>)
    ensures r.Some? ==> |r.value.0| == n
  {
    if n == 0 then Some(([], b))
    else
      var (o, k) :- GetOperand(b);
      var (os, k1) :- GetOperandList(n - 1, k);
      Some(([o] + os, k1))
  }

  function GetOperands(b: seq<u8>): Decoded<Operands> {
    var (n, k) :- GetU16(b);
    var (os, k1) :- GetOperandList(n, k);
    Some((os, k1))
  }

  function GetTextList(n: nat, b: seq<u8>): (r: Decoded<seq<Str>>)
    ensures r.Some? ==> |r.value.0| == n
  {
    if n == 0 then Some(([], b))
    else
      var (s, k) :- GetText(b);
      var (ss, k1) :- GetTextList(n - 1, k);
      Some(([s] + ss, k1))
  }

  function GetTexts(b: seq<u8>): Decoded<Strs> {
    var (n, k) :- GetByte(b);
    var (ss, k1) :- GetTextList(n, k);
    Some((ss, k1))
  }

  function GetCommand(b: seq<u8>): Decoded<Command> {
    var (path, k1) :- GetTexts(b);
    var (aliases, k2) :- GetTexts(k1);
    var (description, k3) :- GetOptText(k2);
    var (_, k4) :- GetText(k3);
    var (_, k5) :- GetOptText(k4);
    var (options, k6) :- GetOpts(k5);
    var (operands, k7) :- GetOperands(k6);
    Some((Command(path, aliases, options, operands, description), k7))
  }

  function GetCommandList(n: nat, b: seq<u8>): (r: Decoded<seq<Command>>)
    ensures r.Some? ==> |r.value.0| == n
  {
    if n == 0 then Some(([], b))
    else
      var (c, k) :- GetCommand(b);
      var (cs, k1) :- GetCommandList(n - 1, k);
      Some(([c] + cs, k1))
  }

  function GetExit(b: seq<u8>): Decoded<Exit> {
    var (tag, k) :- GetByte(b);
    if tag == 0 then Some((NoExit, k))
    else if tag == 1 then var (v, k1) :- GetI64(k); Some((FixedExit(v), k1))
    else if tag == 2 then var (s, k1) :- GetText(k); Some((BindingExit(s), k1))
    else if tag == 3 then
      var (_, k1) :- GetText(k);
      var (s, k2) :- GetText(k1);
      Some((FieldExit(s), k2))
    else if tag == 4 then Some((UnsupportedExit, k))
    else None
  }

  function GetIfSome(present: bool, b: seq<u8>): Decoded<Option<Str>> {
    if present then var (s, k) :- GetText(b); Some((Some(s), k)) else Some((None, b))
  }

  datatype Head = Head(name: Str, mode: u8, version: Option<Str>, description: Option<Str>, exit: Exit)

  datatype Body = Body(
    globalOptions: Opts,
    globalOperands: Operands,
    options: Opts,
    operands: Operands,
    commands: Commands)

  function GetHead(b: seq<u8>): Decoded<Head> {
    if |b| < 4 || b[..4] != MAGIC then None
    else
      var (version, k1) :- GetByte(b[4..]);
      if version != VERSION then None
      else
        var (mode, k2) :- GetByte(k1);
        var (hasVersion, k3) :- GetFlag(k2);
        var (hasDescription, k4) :- GetFlag(k3);
        var (name, k5) :- GetText(k4);
        var (ver, k6) :- GetIfSome(hasVersion, k5);
        var (description, k7) :- GetIfSome(hasDescription, k6);
        var (exit, k8) :- GetExit(k7);
        Some((Head(name, mode, ver, description, exit), k8))
  }

  function GetBody(b: seq<u8>): Decoded<Body> {
    var (globalOptions, k1) :- GetOpts(b);
    var (globalOperands, k2) :- GetOperands(k1);
    var (options, k3) :- GetOpts(k2);
    var (operands, k4) :- GetOperands(k3);
    var (n, k5) :- GetU16(k4);
    var (commands, k6) :- GetCommandList(n, k5);
    Some((Body(globalOptions, globalOperands, options, operands, commands), k6))
  }

  function Join(h: Head, b: Body): Descriptor {
    Descriptor(h.name, h.mode, h.version, h.description, h.exit,
               b.globalOptions, b.globalOperands, b.options, b.operands, b.commands)
  }

  /** `decode_descriptor`; the reader itself refuses fewer than 5 bytes. */
  function GetDescriptor(b: seq<u8>): Decoded<Descriptor> {
    if |b| < 5 then None
    else
      var (head, k) :- GetHead(b);
      var (body, k1) :- GetBody(k);
      Some((Join(head, body), k1))
  }

  // ---- decoding undoes the layout, whatever follows ----

  lemma U16RoundTrip(v: u16, k: seq<u8>)
    ensures GetU16(PutU16(v, k)) == Some((v, k))
  {
    Pow256Values();
    FromLeOfLeBytes(v, 2);
    assert PutU16(v, k)[..2] == LeBytes(v, 2) && PutU16(v, k)[2..] == k;
  }

  lemma I64RoundTrip(v: i64, k: seq<u8>)
    ensures GetI64(PutI64(v, k)) == Some((v, k))
  {
    hide PutU64, GetU64;
    U64RoundTrip(if v < 0 then v + 0x1_0000_0000_0000_0000 else v, k);
  }

  lemma FlagRoundTrip(v: bool, k: seq<u8>)
    ensures GetFlag(PutBool(v, k)) == Some((v, k))
  {
    ByteRoundTrip(if v then 1 else 0, k);
  }

  lemma TextRoundTrip(s: Str, k: seq<u8>)
    ensures GetText(PutText(s, k)) == Some((s, k))
  {
    hide PutU16, GetU16, ValidUtf8;
    U16RoundTrip(|s|, s + k);
    assert (s + k)[..|s|] == s && (s + k)[|s|..] == k;
  }

  lemma OptTextRoundTrip(s: Option<Str>, k: seq<u8>)
    ensures GetOptText(PutOptText(s, k)) == Some((s, k))
  {
    hide PutText, GetText, PutBool, GetFlag;
    FlagRoundTrip(s.Some?, if s.Some? then PutText(s.value, k) else k);
    if s.Some? {
      TextRoundTrip(s.value, k);
    }
  }

  lemma DefaultRoundTrip(d: Default, k: seq<u8>)
    ensures GetDefault(PutDefault(d, k)) == Some((d, k))
  {
    hide PutText, GetText, PutBool, GetFlag, PutByte, GetByte, PutI64, GetI64, PutU64, GetU64;
    match d
    case TextDefault(s) => ByteRoundTrip(0, PutText(s, k)); TextRoundTrip(s, k);
    case IntegerDefault(v) => ByteRoundTrip(1, PutI64(v, k)); I64RoundTrip(v, k);
    case FloatDefault(bits) => ByteRoundTrip(2, PutU64(bits, k)); U64RoundTrip(bits, k);
    case BoolDefault(flag) => ByteRoundTrip(3, PutBool(flag, k)); FlagRoundTrip(flag, k);
    case NilDefault => ByteRoundTrip(4, k);
    case ExprDefault(s) => ByteRoundTrip(5, PutText(s, k)); TextRoundTrip(s, k);
  }

  lemma OptDefaultRoundTrip(d: Option<Default>, k: seq<u8>)
    ensures GetOptDefault(PutOptDefault(d, k)) == Some((d, k))
  {
    hide PutDefault, GetDefault, PutBool, GetFlag;
    FlagRoundTrip(d.Some?, if d.Some? then PutDefault(d.value, k) else k);
    if d.Some? {
      DefaultRoundTrip(d.value, k);
    }
  }

  lemma OptRoundTrip(o: Opt, k: seq<u8>)
    ensures GetOpt(PutOpt(o, k)) == Some((o, k))
  {
    hide PutText, GetText, PutBool, GetFlag, PutByte, GetByte, PutOptText, GetOptText, PutOptDefault, GetOptDefault;
    var k6 := PutText(o.binding, k);
    var k5 := PutOptDefault(o.default, k6);
    var k4 := PutOptText(o.description, k5);
    var k3 := PutOptText(o.long, k4);
    var k2 := PutOptText(o.short, k3);
    ByteRoundTrip(o.ty, PutBool(o.flag, k2));
    FlagRoundTrip(o.flag, k2);
    OptTextRoundTrip(o.short, k3);
    OptTextRoundTrip(o.long, k4);
    OptTextRoundTrip(o.description, k5);
    OptDefaultRoundTrip(o.default, k6);
    TextRoundTrip(o.binding, k);
  }

  lemma {:induction false} OptListRoundTrip(os: seq<Opt>, k: seq<u8>)
    ensures GetOptList(|os|, PutOptList(os, k)) == Some((os, k))
  {
    hide PutOpt, GetOpt;
    if os != [] {
      OptRoundTrip(os[0], PutOptList(os[1..], k));
      OptListRoundTrip(os[1..], k);
      assert os == [os[0]] + os[1..];
    }
  }

  lemma OptsRoundTrip(os: Opts, k: seq<u8>)
    ensures GetOpts(PutOpts(os, k)) == Some((os, k))
  {
    hide PutU16, GetU16, PutOptList, GetOptList;
    U16RoundTrip(|os|, PutOptList(os, k));
    OptListRoundTrip(os, k);
  }

  lemma OperandRoundTrip(o: Operand, k: seq<u8>)
    ensures GetOperand(PutOperand(o, k)) == Some((o, k))
  {
    hide PutText, GetText, PutBool, GetFlag, PutByte, GetByte, PutOptText, GetOptText, PutOptDefault, GetOptDefault;
    var k4 := PutText(o.binding, k);
    var k3 := PutOptDefault(o.default, k4);
    var k2 := PutOptText(o.description, k3);
    ByteRoundTrip(o.ty, PutBool(o.rest, k2));
    FlagRoundTrip(o.rest, k2);
    OptTextRoundTrip(o.description, k3);
    OptDefaultRoundTrip(o.default, k4);
    TextRoundTrip(o.binding, k);
  }

  lemma {:induction false} OperandListRoundTrip(os: seq<Operand>, k: seq<u8>)
    ensures GetOperandList(|os|, PutOperandList(os, k)) == Some((os, k))
  {
    hide PutOperand, GetOperand;
    if os != [] {
      OperandRoundTrip(os[0], PutOperandList(os[1..], k));
      OperandListRoundTrip(os[1..], k);
      assert os == [os[0]] + os[1..];
    }
  }

  lemma OperandsRoundTrip(os: Operands, k: seq<u8>)
    ensures GetOperands(PutOperands(os, k)) == Some((os, k))
  {
    hide PutU16, GetU16, PutOperandList, GetOperandList;
    U16RoundTrip(|os|, PutOperandList(os, k));
    OperandListRoundTrip(os, k);
  }

  lemma {:induction false} TextListRoundTrip(ss: seq<Str>, k: seq<u8>)
    ensures GetTextList(|ss|, PutTextList(ss, k)) == Some((ss, k))
  {
    hide PutText, GetText;
    if ss != [] {
      TextRoundTrip(ss[0], PutTextList(ss[1..], k));
      TextListRoundTrip(ss[1..], k);
      assert ss == [ss[0]] + ss[1..];
    }
  }

  lemma TextsRoundTrip(ss: Strs, k: seq<u8>)
    ensures GetTexts(PutTexts(ss, k)) == Some((ss, k))
  {
    hide PutByte, GetByte, PutTextList, GetTextList;
    ByteRoundTrip(|ss|, PutTextList(ss, k));
    TextListRoundTrip(ss, k);
  }

  lemma CommandRoundTrip(c: Command, u: Unread, k: seq<u8>)
    ensures GetCommand(PutCommand(c, u, k)) == Some((c, k))
  {
    hide PutTexts, GetTexts, PutText, GetText, PutOptText, GetOptText, PutOpts, GetOpts, PutOperands, GetOperands;
    var k6 := PutOperands(c.operands, k);
    var k5 := PutOpts(c.options, k6);
    var k4 := PutOptText(u.argsBinding, k5);
    var k3 := PutText(u.functionName, k4);
    var k2 := PutOptText(c.description, k3);
    TextsRoundTrip(c.path, PutTexts(c.aliases, k2));
    TextsRoundTrip(c.aliases, k2);
    OptTextRoundTrip(c.description, k3);
    TextRoundTrip(u.functionName, k4);
    OptTextRoundTrip(u.argsBinding, k5);
    OptsRoundTrip(c.options, k6);
    OperandsRoundTrip(c.operands, k);
  }

  lemma {:induction false} CommandListRoundTrip(cs: seq<Command>, us: seq<Unread>, k: seq<u8>)
    requires |cs| == |us|
    ensures GetCommandList(|cs|, PutCommandList(cs, us, k)) == Some((cs, k))
  {
    hide PutCommand, GetCommand;
    if cs != [] {
      CommandRoundTrip(cs[0], us[0], PutCommandList(cs[1..], us[1..], k));
      CommandListRoundTrip(cs[1..], us[1..], k);
      assert cs == [cs[0]] + cs[1..];
    }
  }

  lemma ExitRoundTrip(e: Exit, objectName: Str, k: seq<u8>)
    ensures GetExit(PutExit(e, objectName, k)) == Some((e, k))
  {
    hide PutText, GetText, PutByte, GetByte, PutI64, GetI64;
    match e
    case NoExit => ByteRoundTrip(0, k);
    case FixedExit(code) => ByteRoundTrip(1, PutI64(code, k)); I64RoundTrip(code, k);
    case BindingExit(binding) => ByteRoundTrip(2, PutText(binding, k)); TextRoundTrip(binding, k);
    case FieldExit(field) =>
      ByteRoundTrip(3, PutText(objectName, PutText(field, k)));
      TextRoundTrip(objectName, PutText(field, k));
      TextRoundTrip(field, k);
    case UnsupportedExit => ByteRoundTrip(4, k);
  }

  lemma IfSomeRoundTrip(s: Option<Str>, k: seq<u8>)
    ensures GetIfSome(s.Some?, PutIfSome(s, k)) == Some((s, k))
  {
    hide PutText, GetText;
    if s.Some? {
      TextRoundTrip(s.value, k);
    }
  }

  function HeadOf(d: Descriptor): Head {
    Head(d.name, d.mode, d.version, d.description, d.exit)
  }

  function BodyOf(d: Descriptor): Body {
    Body(d.globalOptions, d.globalOperands, d.options, d.operands, d.commands)
  }

  lemma HeadRoundTrip(d: Descriptor, objectName: Str, k: seq<u8>)
    ensures GetHead(PutHead(d, objectName, k)) == Some((HeadOf(d), k)) && |PutHead(d, objectName, k)| >= 5
  {
    hide PutText, GetText, PutBool, GetFlag, GetByte, PutIfSome, GetIfSome, PutExit, GetExit;
    var k7 := PutExit(d.exit, objectName, k);
    var k6 := PutIfSome(d.description, k7);
    var k5 := PutIfSome(d.version, k6);
    var k4 := PutText(d.name, k5);
    var k3 := PutBool(d.description.Some?, k4);
    var k2 := PutBool(d.version.Some?, k3);
    var b := PutHead(d, objectName, k);
    assert b[..4] == MAGIC && b[4..] == PutByte(VERSION, PutByte(d.mode, k2));
    ByteRoundTrip(VERSION, PutByte(d.mode, k2));
    ByteRoundTrip(d.mode, k2);
    FlagRoundTrip(d.version.Some?, k3);
    FlagRoundTrip(d.description.Some?, k4);
    TextRoundTrip(d.name, k5);
    IfSomeRoundTrip(d.version, k6);
    IfSomeRoundTrip(d.description, k7);
    ExitRoundTrip(d.exit, objectName, k);
  }

  lemma BodyRoundTrip(d: Descriptor, us: seq<Unread>, k: seq<u8>)
    requires |us| == |d.commands|
    ensures GetBody(PutBody(d, us, k)) == Some((BodyOf(d), k))
  {
    hide PutU16, GetU16, PutOpts, GetOpts, PutOperands, GetOperands, PutCommandList, GetCommandList;
    var k5 := PutCommandList(d.commands, us, k);
    var k4 := PutU16(|d.commands|, k5);
    var k3 := PutOperands(d.operands, k4);
    var k2 := PutOpts(d.options, k3);
    OptsRoundTrip(d.globalOptions, PutOperands(d.globalOperands, k2));
    OperandsRoundTrip(d.globalOperands, k2);
    OptsRoundTrip(d.options, k3);
    OperandsRoundTrip(d.operands, k4);
    U16RoundTrip(|d.commands|, k5);
    CommandListRoundTrip(d.commands, us, k);
  }

  /** Decoding a laid-out descriptor returns it and stops exactly at its end, whatever bytes follow. */
  lemma DescriptorRoundTrip(d: Descriptor, objectName: Str, us: seq<Unread>, k: seq<u8>)
    requires |us| == |d.commands|
    ensures GetDescriptor(PutDescriptor(d, objectName, us, k)) == Some((d, k))
  {
    hide PutHead, GetHead, PutBody, GetBody;
    HeadRoundTrip(d, objectName, PutBody(d, us, k));
    BodyRoundTrip(d, us, k);
  }
}
