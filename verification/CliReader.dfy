/** The descriptor reader object of llvm/src/cli.rs, proved to decode the v1 layout and never to pass the end. */
module CliReader {
  import opened Prelude
  import opened DeviceIdentity
  import opened CliDescriptor

  class DescrReader {
    const bytes: seq<u8>
    var offset: nat

    ghost predicate Valid()
      reads this
    {
      offset <= |bytes|
    }

    /** What is still to be read. */
    ghost function Rest(): seq<u8>
      requires Valid()
      reads this
    {
      bytes[offset..]
    }

    /** A read returned what `d` decodes and left what follows it. */
    ghost predicate Agrees<T>(r: Option<T>, d: Decoded<T>)
      requires Valid()
      reads this
    {
      if d.None? then r.None? else r == Some(d.value.0) && Rest() == d.value.1
    }

    constructor (bytes: seq<u8>)
      ensures Valid() && this.bytes == bytes && offset == 0
    {
      this.bytes, offset := bytes, 0;
    }

    /** The next `len` bytes, or nothing without moving. */
    method Take(len: nat) returns (r: Option<seq<u8>>)
      requires Valid()
      modifies this`offset
      ensures Valid() && (r.Some? <==> len <= |old(Rest())|)
      ensures r.None? ==> offset == old(offset)
      ensures r.Some? ==> r.value == old(Rest())[..len] && Rest() == old(Rest())[len..] && offset == old(offset) + len
    {
      var end := offset + len;
      if end > |bytes| {
        return None;
      }
      r := Some(bytes[offset..end]);
      offset := end;
    }

    method U8() returns (r: Option<u8>)
      requires Valid()
      modifies this`offset
      ensures Valid() && old(offset) <= offset && Agrees(r, GetByte(old(Rest())))
    {
      var b :- Take(1);
      return Some(b[0]);
    }

    method U16() returns (r: Option<u16>)
      requires Valid()
      modifies this`offset
      ensures Valid() && old(offset) <= offset && Agrees(r, GetU16(old(Rest())))
    {
      var b :- Take(2);
      LeBytesOfFromLe(b);
      Pow256Values();
      return Some(FromLe(b));
    }

    /** Eight bytes as an unsigned word: also the bits of a float. */
    method U64() returns (r: Option<u64>)
      requires Valid()
      modifies this`offset
      ensures Valid() && old(offset) <= offset && Agrees(r, GetU64(old(Rest())))
    {
      var b :- Take(8);
      LeBytesOfFromLe(b);
      Pow256Values();
      return Some(FromLe(b));
    }

    method I64() returns (r: Option<i64>)
      requires Valid()
      modifies this`offset
      ensures Valid() && old(offset) <= offset && Agrees(r, GetI64(old(Rest())))
    {
      hide GetU64;
      var v :- U64();
      var signed: int := v;
      if signed >= 0x8000_0000_0000_0000 {
        signed := signed - 0x1_0000_0000_0000_0000;
      }
      return Some(signed);
    }

    method Flag() returns (r: Option<bool>)
      requires Valid()
      modifies this`offset
      ensures Valid() && old(offset) <= offset && Agrees(r, GetFlag(old(Rest())))
    {
      hide GetByte;
      var v :- U8();
      return Some(v != 0);
    }

    method Text() returns (r: Option<Str>)
      requires Valid()
      modifies this`offset
      ensures Valid() && old(offset) <= offset && Agrees(r, GetText(old(Rest())))
    {
      hide GetU16, ValidUtf8;
      var n :- U16();
      var b :- Take(n);
      if !ValidUtf8(b) {
        return None;
      }
      return Some(b);
    }

    method OptText() returns (r: Option<Option<Str>>)
      requires Valid()
      modifies this`offset
      ensures Valid() && old(offset) <= offset && Agrees(r, GetOptText(old(Rest())))
    {
      hide GetFlag, GetText;
      var present :- Flag();
      if !present {
        return Some(None);
      }
      var s :- Text();
      return Some(Some(s));
    }

    method ReadDefault() returns (r: Option<Default>)
      requires Valid()
      modifies this`offset
      ensures Valid() && old(offset) <= offset && Agrees(r, GetDefault(old(Rest())))
    {
      hide GetByte, GetText, GetI64, GetU64, GetFlag;
      var tag :- U8();
      if tag == 0 {
        var s :- Text();
        return Some(TextDefault(s));
      } else if tag == 5 {
        var s :- Text();
        return Some(ExprDefault(s));
      } else if tag == 1 {
        var v :- I64();
        return Some(IntegerDefault(v));
      } else if tag == 2 {
        var v :- U64();
        return Some(FloatDefault(v));
      } else if tag == 3 {
        var v :- Flag();
        return Some(BoolDefault(v));
      } else if tag == 4 {
        return Some(NilDefault);
      }
      return None;
    }

    method OptDefault() returns (r: Option<Option<Default>>)
      requires Valid()
      modifies this`offset
      ensures Valid() && old(offset) <= offset && Agrees(r, GetOptDefault(old(Rest())))
    {
      hide GetFlag, GetDefault;
      var present :- Flag();
      if !present {
        return Some(None);
      }
      var d :- ReadDefault();
      return Some(Some(d));
    }

    method ReadOpt() returns (r: Option<Opt>)
      requires Valid()
      modifies this`offset
      ensures Valid() && old(offset) <= offset && Agrees(r, GetOpt(old(Rest())))
    {
      hide GetByte, GetFlag, GetOptText, GetOptDefault, GetText;
      var ty :- U8();
      var flag :- Flag();
      var short :- OptText();
      var long :- OptText();
      var description :- OptText();
      var default :- OptDefault();
      var binding :- Text();
      return Some(Opt(ty, flag, short, long, description, default, binding));
    }

    /** `decode_options` */
    method ReadOpts() returns (r: Option<Opts>)
      requires Valid()
      modifies this`offset
      ensures Valid() && old(offset) <= offset && Agrees(r, GetOpts(old(Rest())))
    {
      hide GetU16, GetOpt;
      var n :- U16();
      ghost var start := Rest();
      var os: seq<Opt> := [];
      PrependNothing(GetOptList(n, start));
      for i := 0 to n
        invariant Valid() && old(offset) <= offset && |os| == i
        invariant GetOptList(n, start) == Prepend(os, GetOptList(n - i, Rest()))
      {
        ghost var before := Rest();
        var o :- ReadOpt();
        OptListStep(n - i, before);
        PrependOne(os, o, GetOptList(n - i - 1, Rest()));
        os := os + [o];
      }
      PrependAll(os, Rest());
      return Some(os);
    }

    method ReadOperand() returns (r: Option<Operand>)
      requires Valid()
      modifies this`offset
      ensures Valid() && old(offset) <= offset && Agrees(r, GetOperand(old(Rest())))
    {
      hide GetByte, GetFlag, GetOptText, GetOptDefault, GetText;
      var ty :- U8();
      var rest :- Flag();
      var description :- OptText();
      var default :- OptDefault();
      var binding :- Text();
      return Some(Operand(ty, rest, description, default, binding));
    }

    /** `decode_operands` */
    method ReadOperands() returns (r: Option<Operands>)
      requires Valid()
      modifies this`offset
      ensures Valid() && old(offset) <= offset && Agrees(r, GetOperands(old(Rest())))
    {
      hide GetU16, GetOperand;
      var n :- U16();
      ghost var start := Rest();
      var os: seq<Operand> := [];
      PrependNothing(GetOperandList(n, start));
      for i := 0 to n
        invariant Valid() && old(offset) <= offset && |os| == i
        invariant GetOperandList(n, start) == Prepend(os, GetOperandList(n - i, Rest()))
      {
        ghost var before := Rest();
        var o :- ReadOperand();
        OperandListStep(n - i, before);
        PrependOne(os, o, GetOperandList(n - i - 1, Rest()));
        os := os + [o];
      }
      PrependAll(os, Rest());
      return Some(os);
    }

    /** The path and the aliases of a command: a byte count, then strings. */
    method Texts() returns (r: Option<Strs>)
      requires Valid()
      modifies this`offset
      ensures Valid() && old(offset) <= offset && Agrees(r, GetTexts(old(Rest())))
    {
      hide GetByte, GetText;
      var n :- U8();
      ghost var start := Rest();
      var ss: seq<Str> := [];
      PrependNothing(GetTextList(n, start));
      for i := 0 to n
        invariant Valid() && old(offset) <= offset && |ss| == i
        invariant GetTextList(n, start) == Prepend(ss, GetTextList(n - i, Rest()))
      {
        ghost var before := Rest();
        var s :- Text();
        TextListStep(n - i, before);
        PrependOne(ss, s, GetTextList(n - i - 1, Rest()));
        ss := ss + [s];
      }
      PrependAll(ss, Rest());
      return Some(ss);
    }

    /** `decode_command`: the function identity and the args binding are read past. */
    method ReadCommand() returns (r: Option<Command>)
      requires Valid()
      modifies this`offset
      ensures Valid() && old(offset) <= offset && Agrees(r, GetCommand(old(Rest())))
    {
      hide GetTexts, GetText, GetOptText, GetOpts, GetOperands;
      var path :- Texts();
      var aliases :- Texts();
      var description :- OptText();
      var _ :- Text();
      var _ :- OptText();
      var options :- ReadOpts();
      var operands :- ReadOperands();
      return Some(Command(path, aliases, options, operands, description));
    }

    /** `decode_exit` */
    method ReadExit() returns (r: Option<Exit>)
      requires Valid()
      modifies this`offset
      ensures Valid() && old(offset) <= offset && Agrees(r, GetExit(old(Rest())))
    {
      hide GetByte, GetText, GetI64;
      var tag :- U8();
      if tag == 0 {
        return Some(NoExit);
      } else if tag == 1 {
        var v :- I64();
        return Some(FixedExit(v));
      } else if tag == 2 {
        var s :- Text();
        return Some(BindingExit(s));
      } else if tag == 3 {
        var _ :- Text();
        var s :- Text();
        return Some(FieldExit(s));
      } else if tag == 4 {
        return Some(UnsupportedExit);
      }
      return None;
    }

    method TextIf(present: bool) returns (r: Option<Option<Str>>)
      requires Valid()
      modifies this`offset
      ensures Valid() && old(offset) <= offset && Agrees(r, GetIfSome(present, old(Rest())))
    {
      hide GetText;
      if !present {
        return Some(None);
      }
      var s :- Text();
      return Some(Some(s));
    }

    method ReadHead() returns (r: Option<Head>)
      requires Valid()
      modifies this`offset
      ensures Valid() && old(offset) <= offset && Agrees(r, GetHead(old(Rest())))
    {
      hide GetByte, GetFlag, GetText, GetIfSome, GetExit;
      var magic :- Take(4);
      if magic != MAGIC {
        return None;
      }
      var version :- U8();
      if version != VERSION {
        return None;
      }
      var mode :- U8();
      var hasVersion :- Flag();
      var hasDescription :- Flag();
      var name :- Text();
      var ver :- TextIf(hasVersion);
      var description :- TextIf(hasDescription);
      var exit :- ReadExit();
      return Some(Head(name, mode, ver, description, exit));
    }

    method ReadCommands(n: u16) returns (r: Option<Commands>)
      requires Valid()
      modifies this`offset
      ensures Valid() && old(offset) <= offset && Agrees(r, GetCommandList(n, old(Rest())))
    {
      hide GetCommand;
      ghost var start := Rest();
      var commands: seq<Command> := [];
      PrependNothing(GetCommandList(n, start));
      for i := 0 to n
        invariant Valid() && old(offset) <= offset && |commands| == i
        invariant GetCommandList(n, start) == Prepend(commands, GetCommandList(n - i, Rest()))
      {
        ghost var before := Rest();
        var c :- ReadCommand();
        CommandListStep(n - i, before);
        PrependOne(commands, c, GetCommandList(n - i - 1, Rest()));
        commands := commands + [c];
      }
      PrependAll(commands, Rest());
      return Some(commands);
    }

    method ReadBody() returns (r: Option<Body>)
      requires Valid()
      modifies this`offset
      ensures Valid() && old(offset) <= offset && Agrees(r, GetBody(old(Rest())))
    {
      hide GetU16, GetOpts, GetOperands, GetCommandList;
      var globalOptions :- ReadOpts();
      var globalOperands :- ReadOperands();
      var options :- ReadOpts();
      var operands :- ReadOperands();
      var n :- U16();
      var commands :- ReadCommands(n);
      return Some(Body(globalOptions, globalOperands, options, operands, commands));
    }

    /** `decode_descriptor` on any input: the result of the layout, and an offset within the input. */
    static method Decode(bytes: seq<u8>) returns (r: Option<Descriptor>, end: nat)
      ensures end <= |bytes|
      ensures var d := GetDescriptor(bytes);
        if d.None? then r.None? else r == Some(d.value.0) && bytes[end..] == d.value.1
    {
      hide GetHead, GetBody;
      if |bytes| < 5 {
        return None, 0;
      }
      var reader := new DescrReader(bytes);
      var head := reader.ReadHead();
      if head.None? {
        return None, reader.offset;
      }
      var body := reader.ReadBody();
      if body.None? {
        return None, reader.offset;
      }
      return Some(Join(head.value, body.value)), reader.offset;
    }
  }

  /** Items read before the rest of a list. */
  ghost function Prepend<T>(done: seq<T>, d: Decoded<seq<T>>): Decoded<seq<T>> {
    if d.None? then None else Some((done + d.value.0, d.value.1))
  }

  lemma PrependNothing<T>(d: Decoded<seq<T>>)
    ensures Prepend([], d) == d
  {
    if d.Some? {
      assert [] + d.value.0 == d.value.0;
    }
  }

  lemma PrependAll<T>(done: seq<T>, b: seq<u8>)
    ensures Prepend(done, Some(([], b))) == Some((done, b))
  {
    assert done + [] == done;
  }

  lemma PrependOne<T>(done: seq<T>, x: T, d: Decoded<seq<T>>)
    ensures Prepend(done, Prepend([x], d)) == Prepend(done + [x], d)
  {
    if d.Some? {
      assert done + ([x] + d.value.0) == (done + [x]) + d.value.0;
    }
  }

  lemma OptListStep(n: nat, b: seq<u8>)
    requires n > 0
    ensures var o := GetOpt(b);
      GetOptList(n, b) == if o.None? then None else Prepend([o.value.0], GetOptList(n - 1, o.value.1))
  {
    hide GetOpt;
  }

  lemma OperandListStep(n: nat, b: seq<u8>)
    requires n > 0
    ensures var o := GetOperand(b);
      GetOperandList(n, b) == if o.None? then None else Prepend([o.value.0], GetOperandList(n - 1, o.value.1))
  {
    hide GetOperand;
  }

  lemma TextListStep(n: nat, b: seq<u8>)
    requires n > 0
    ensures var o := GetText(b);
      GetTextList(n, b) == if o.None? then None else Prepend([o.value.0], GetTextList(n - 1, o.value.1))
  {
    hide GetText;
  }

  lemma CommandListStep(n: nat, b: seq<u8>)
    requires n > 0
    ensures var o := GetCommand(b);
      GetCommandList(n, b) == if o.None? then None else Prepend([o.value.0], GetCommandList(n - 1, o.value.1))
  {
    hide GetCommand;
  }

  /** Reading a laid-out descriptor recovers it and stops exactly where it ends, whatever follows. */
  method DecodeLaidOut(d: Descriptor, objectName: Str, us: seq<Unread>,
                       trailing: seq<u8>) returns (r: Option<Descriptor>, end: nat)
    requires |us| == |d.commands|
    ensures r == Some(d)
    ensures end <= |PutDescriptor(d, objectName, us, trailing)|
    ensures PutDescriptor(d, objectName, us, trailing)[end..] == trailing
  {
    hide PutDescriptor, GetDescriptor;
    DescriptorRoundTrip(d, objectName, us, trailing);
    r, end := DescrReader.Decode(PutDescriptor(d, objectName, us, trailing));
  }
}
