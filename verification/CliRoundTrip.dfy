/** Rendering option assignments as arguments and scanning them back. */
module CliRoundTrip {
  import opened Prelude
  import opened CliDescriptor
  import opened CliParse

  /** `--name=value`, `--name value` or `-x value`; a flag takes no argument, and ignores an inline value. */
  datatype Form = LongInline | LongSeparate | ShortSeparate

  /** One option given on the command line. */
  datatype Assignment = Assignment(option: nat, value: Arg, form: Form)

  predicate NamedFirst(opts: seq<Opt>, i: nat) {
    i < |opts| && opts[i].long.Some? && forall j | 0 <= j < i :: opts[j].long != opts[i].long
  }

  predicate ShortFirst(opts: seq<Opt>, i: nat) {
    i < |opts| && opts[i].short.Some? && forall j | 0 <= j < i :: opts[j].short != opts[i].short
  }

  /** The separate form must not read as the terminator, help or version; the `=` form never does. */
  predicate SeparateReads(name: Arg, hasVersion: bool) {
    DASHES + name != DASHES && !IsHelp(DASHES + name) && (hasVersion ==> DASHES + name != VERSION_OPTION)
  }

  /** A short name must not be empty, read as help, or make a long option of the argument. */
  predicate ShortReads(name: Arg) {
    name != [] && name[0] != 0x2D && [0x2D] + name != SHORT_HELP
  }

  /** The option is the first with the name that is written, and the argument reads as that name. */
  predicate Writable(s: Surface, a: Assignment) {
    if a.form.ShortSeparate? then ShortFirst(s.opts, a.option) && ShortReads(s.opts[a.option].short.value)
    else
      && NamedFirst(s.opts, a.option) && EQUALS !in s.opts[a.option].long.value
      && (a.form.LongSeparate? ==> SeparateReads(s.opts[a.option].long.value, s.hasVersion))
  }

  /** A flag, or a value option and a value its type parses. */
  predicate Assignable(s: Surface, a: Assignment) {
    && a.option < |s.opts| && Writable(s, a)
    && (s.opts[a.option].flag || ParseOptionValue(s.floats, s.opts[a.option], a.value).Some?)
  }

  /** What the record holds for an option that was given: true for a flag, the parsed value otherwise. */
  function Given(s: Surface, a: Assignment): Entry
    requires Assignable(s, a)
  {
    var o := s.opts[a.option];
    if o.flag then Scalar(o.ty, BoolValue(true)) else ParseOptionValue(s.floats, o, a.value).value
  }

  predicate TakesText(o: Opt) { !o.flag && o.ty !in {NUMERUS, FRACTUS, BIVALENS, OCTETI} }

  /** The entry of a text option given on the command line. */
  function TextEntry(o: Opt, value: Arg): Entry {
    if o.default.None? then Carrier(o.ty, Some(TextValue(value))) else Scalar(o.ty, TextValue(value))
  }

  /** Text options take any value. */
  lemma TextAlwaysParses(floats: FloatTable, o: Opt, raw: Arg)
    requires TakesText(o)
    ensures ParseOptionValue(floats, o, raw) == Some(TextEntry(o, raw))
  {
  }

  function OptionArg(opts: seq<Opt>, i: nat): Arg
    requires NamedFirst(opts, i)
  {
    DASHES + opts[i].long.value
  }

  /** The argument that names the option, and the next one if it is its value. */
  function RenderOne(s: Surface, a: Assignment): seq<Arg>
    requires Writable(s, a)
  {
    var o := s.opts[a.option];
    match a.form
    case LongInline => [OptionArg(s.opts, a.option) + [EQUALS] + a.value]
    case LongSeparate => if o.flag then [OptionArg(s.opts, a.option)] else [OptionArg(s.opts, a.option), a.value]
    case ShortSeparate => if o.flag then [[0x2D] + o.short.value] else [[0x2D] + o.short.value, a.value]
  }

  ghost predicate AllAssignable(s: Surface, assignments: seq<Assignment>) {
    forall k | 0 <= k < |assignments| :: Assignable(s, assignments[k])
  }

  ghost function Render(s: Surface, assignments: seq<Assignment>): seq<Arg>
    requires AllAssignable(s, assignments)
  {
    if assignments == [] then []
    else RenderOne(s, assignments[0]) + Render(s, assignments[1..])
  }

  /** The entries after the assignments, in order. */
  ghost function Assigned(s: Surface, entries: seq<Entry>, assignments: seq<Assignment>): (r: seq<Entry>)
    requires |entries| == |s.opts| && AllAssignable(s, assignments)
    ensures |r| == |entries|
    decreases |assignments|
  {
    if assignments == [] then entries
    else
      var a := assignments[0];
      Assigned(s, entries[a.option := Given(s, a)], assignments[1..])
  }

  // ---- splitting at `=` ----

  lemma SplitAtFirst(name: Arg, value: Arg)
    requires EQUALS !in name
    ensures LongName(name + [EQUALS] + value) == name && InlineValue(name + [EQUALS] + value) == Some(value)
    ensures LongName(name) == name && InlineValue(name) == None
  {
    var arg := name + [EQUALS] + value;
    assert arg[|name|] == EQUALS && arg[|name| + 1..] == value && arg[..|name|] == name;
    FirstSplit(arg, |name|);
    FirstSplit(name, |name|);
  }

  /** The split is at the only position where an `=` stands with none before it. */
  lemma FirstSplit(arg: Arg, n: nat)
    requires n <= |arg| && EQUALS !in arg[..n] && (n < |arg| ==> arg[n] == EQUALS)
    ensures SplitAt(arg) == n
  {
    var i := SplitAt(arg);
    assert forall k | 0 <= k < n :: arg[k] == arg[..n][k];
    assert forall k | 0 <= k < i :: arg[k] == arg[..i][k];
  }

  lemma NoEqualsInName(opts: seq<Opt>, i: nat)
    requires NamedFirst(opts, i) && EQUALS !in opts[i].long.value
    ensures EQUALS !in OptionArg(opts, i)
  {
  }

  lemma FindsNamed(opts: seq<Opt>, i: nat)
    requires NamedFirst(opts, i)
    ensures FindLong(opts, OptionArg(opts, i)) == i
  {
    assert IsLong(opts[i], OptionArg(opts, i));
    forall k | 0 <= k < i && opts[k].long.Some?
      ensures !IsLong(opts[k], OptionArg(opts, i))
    {
      SameDashed(opts[k].long.value, opts[i].long.value);
    }
  }

  lemma SameDashed(a: Arg, b: Arg)
    ensures DASHES + a == DASHES + b ==> a == b
  {
    assert (DASHES + a)[2..] == a && (DASHES + b)[2..] == b;
  }

  // ---- one assignment ----

  /** An argument that names option i by its long name is scanned as that option. */
  lemma ScanNamed(s: Surface, entries: seq<Entry>, positionals: seq<Arg>, args: seq<Arg>, i: nat)
    requires |entries| == |s.opts| && NamedFirst(s.opts, i)
    requires args != [] && DASHES <= args[0] && LongName(args[0]) == OptionArg(s.opts, i)
    requires args[0] != DASHES && !IsHelp(args[0]) && !(s.hasVersion && args[0] == VERSION_OPTION)
    requires ApplyArg(s.floats, s.opts[i], args[0], args[1..]).Sets?
    ensures var applied := ApplyArg(s.floats, s.opts[i], args[0], args[1..]);
      ScanArgs(s, entries, positionals, args)
      == ScanArgs(s, entries[i := applied.entry], positionals, args[1 + applied.taken..])
  {
    hide ApplyArg, LongName, IsHelp;
    FindsNamed(s.opts, i);
  }

  /** An argument that is the short name of option i is scanned as that option. */
  lemma ScanShort(s: Surface, entries: seq<Entry>, positionals: seq<Arg>, args: seq<Arg>, i: nat)
    requires |entries| == |s.opts| && ShortFirst(s.opts, i) && ShortReads(s.opts[i].short.value)
    requires args != [] && args[0] == [0x2D] + s.opts[i].short.value
    requires ApplyArg(s.floats, s.opts[i], args[0], args[1..]).Sets?
    ensures var applied := ApplyArg(s.floats, s.opts[i], args[0], args[1..]);
      ScanArgs(s, entries, positionals, args)
      == ScanArgs(s, entries[i := applied.entry], positionals, args[1 + applied.taken..])
  {
    hide ApplyArg;
    ShortIsNoSpecial(s.opts[i].short.value);
    FindsShort(s.opts, i);
  }

  lemma ShortIsNoSpecial(name: Arg)
    requires ShortReads(name)
    ensures var arg := [0x2D] + name;
      && arg != DASHES && !(DASHES <= arg) && !IsHelp(arg) && arg != VERSION_OPTION && IsOption(arg)
  {
    var arg := [0x2D] + name;
    assert arg[1] == name[0];
  }

  lemma FindsShort(opts: seq<Opt>, i: nat)
    requires ShortFirst(opts, i)
    ensures FindShort(opts, [0x2D] + opts[i].short.value) == i
  {
    var arg := [0x2D] + opts[i].short.value;
    assert IsShort(opts[i], arg);
    forall k | 0 <= k < i && opts[k].short.Some?
      ensures !IsShort(opts[k], arg)
    {
      assert ([0x2D] + opts[k].short.value)[1..] == opts[k].short.value && arg[1..] == opts[i].short.value;
    }
  }

  lemma ScanShortForm(s: Surface, entries: seq<Entry>, positionals: seq<Arg>, a: Assignment, rest: seq<Arg>)
    requires |entries| == |s.opts| && Assignable(s, a) && a.form.ShortSeparate?
    ensures ScanArgs(s, entries, positionals, RenderOne(s, a) + rest)
         == ScanArgs(s, entries[a.option := Given(s, a)], positionals, rest)
  {
    hide ScanArgs, ParseOptionValue;
    var args := RenderOne(s, a) + rest;
    ShortIsNoSpecial(s.opts[a.option].short.value);
    if s.opts[a.option].flag {
      assert args[1..] == rest;
    } else {
      assert args[1..] == [a.value] + rest && args[2..] == rest;
    }
    ScanShort(s, entries, positionals, args, a.option);
  }

  lemma ScanInline(s: Surface, entries: seq<Entry>, positionals: seq<Arg>, a: Assignment, rest: seq<Arg>)
    requires |entries| == |s.opts| && Assignable(s, a) && a.form.LongInline?
    ensures ScanArgs(s, entries, positionals, RenderOne(s, a) + rest)
         == ScanArgs(s, entries[a.option := Given(s, a)], positionals, rest)
  {
    hide ScanArgs, LongName, InlineValue, ParseOptionValue;
    var args := RenderOne(s, a) + rest;
    NoEqualsInName(s.opts, a.option);
    SplitAtFirst(OptionArg(s.opts, a.option), a.value);
    InlineIsNoSpecial(OptionArg(s.opts, a.option), a.value);
    assert DASHES <= args[0] && args[1..] == rest;
    ScanNamed(s, entries, positionals, args, a.option);
  }

  /** An argument with an `=` is neither the terminator nor help nor version. */
  lemma InlineIsNoSpecial(name: Arg, value: Arg)
    ensures var arg := name + [EQUALS] + value;
      arg != DASHES && !IsHelp(arg) && arg != VERSION_OPTION
  {
    var arg := name + [EQUALS] + value;
    assert arg[|name|] == EQUALS;
  }

  lemma ScanSeparate(s: Surface, entries: seq<Entry>, positionals: seq<Arg>, a: Assignment, rest: seq<Arg>)
    requires |entries| == |s.opts| && Assignable(s, a) && a.form.LongSeparate?
    ensures ScanArgs(s, entries, positionals, RenderOne(s, a) + rest)
         == ScanArgs(s, entries[a.option := Given(s, a)], positionals, rest)
  {
    hide ScanArgs, LongName, InlineValue, ParseOptionValue, IsHelp;
    var args := RenderOne(s, a) + rest;
    NoEqualsInName(s.opts, a.option);
    SplitAtFirst(OptionArg(s.opts, a.option), a.value);
    if s.opts[a.option].flag {
      assert args[1..] == rest;
    } else {
      assert args[1..] == [a.value] + rest && args[2..] == rest;
    }
    ScanNamed(s, entries, positionals, args, a.option);
  }

  /** A flag by its long name takes no argument and turns its entry on. */
  lemma FlagReads(s: Surface, entries: seq<Entry>, positionals: seq<Arg>, i: nat, rest: seq<Arg>)
    requires |entries| == |s.opts| && NamedFirst(s.opts, i) && s.opts[i].flag
    requires EQUALS !in s.opts[i].long.value && SeparateReads(s.opts[i].long.value, s.hasVersion)
    ensures ScanArgs(s, entries, positionals, [OptionArg(s.opts, i)] + rest)
         == ScanArgs(s, entries[i := Scalar(s.opts[i].ty, BoolValue(true))], positionals, rest)
  {
    hide ScanArgs;
    ScanSeparate(s, entries, positionals, Assignment(i, [], LongSeparate), rest);
  }

  /** The separate form of a reserved name is never read as the option: the exclusion above is exact. */
  lemma ReservedNameShadowed(s: Surface, entries: seq<Entry>, positionals: seq<Arg>, name: Arg, value: Arg,
                             rest: seq<Arg>)
    requires |entries| == |s.opts| && !SeparateReads(name, s.hasVersion)
    ensures ScanArgs(s, entries, positionals, [DASHES + name, value] + rest)
         == (if DASHES + name == DASHES then Scanned(entries, positionals + ([value] + rest))
             else if IsHelp(DASHES + name) then HelpShown else VersionShown)
  {
    hide Named, ApplyArg;
    assert ([DASHES + name, value] + rest)[1..] == [value] + rest;
  }

  /**
   * The separate form of a value option is read as that option, whatever follows, exactly when its name is not
   * reserved; that nothing follows is the case that tells.
   */
  lemma SeparateFormIff(s: Surface, entries: seq<Entry>, positionals: seq<Arg>, a: Assignment)
    requires |entries| == |s.opts| && Assignable(s, a.(form := LongInline)) && !s.opts[a.option].flag
    ensures var name := s.opts[a.option].long.value;
      var after := entries[a.option := ParseOptionValue(s.floats, s.opts[a.option], a.value).value];
      && (SeparateReads(name, s.hasVersion) ==>
            forall rest :: ScanArgs(s, entries, positionals, [DASHES + name, a.value] + rest)
                        == ScanArgs(s, after, positionals, rest))
      && (SeparateReads(name, s.hasVersion) <==>
            ScanArgs(s, entries, positionals, [DASHES + name, a.value]) == Scanned(after, positionals))
  {
    hide ScanArgs, ParseOptionValue, SeparateReads, IsHelp;
    var name := s.opts[a.option].long.value;
    var after := entries[a.option := ParseOptionValue(s.floats, s.opts[a.option], a.value).value];
    var pair := [DASHES + name, a.value];
    assert pair + [] == pair;
    NothingLeft(s, after, positionals);
    if SeparateReads(name, s.hasVersion) {
      var separate := a.(form := LongSeparate);
      forall rest
        ensures ScanArgs(s, entries, positionals, pair + rest) == ScanArgs(s, after, positionals, rest)
      {
        ScanSeparate(s, entries, positionals, separate, rest);
      }
    } else {
      ReservedNameShadowed(s, entries, positionals, name, a.value, []);
      assert |positionals + ([a.value] + [])| == |positionals| + 1;
    }
  }

  lemma NothingLeft(s: Surface, entries: seq<Entry>, positionals: seq<Arg>)
    requires |entries| == |s.opts|
    ensures ScanArgs(s, entries, positionals, []) == Scanned(entries, positionals)
  {
  }

  /** A text option named `help`: `--help x` shows the help, `--help=x` sets the option. */
  lemma HelpOptionShadowed(s: Surface, x: Arg)
    requires |s.opts| == 1 && s.opts[0].long == Some([0x68, 0x65, 0x6c, 0x70]) && TakesText(s.opts[0])
    ensures var initial := InitialEntries(s.opts);
      && ScanArgs(s, initial, [], [DASHES + [0x68, 0x65, 0x6c, 0x70], x]) == HelpShown
      && ScanArgs(s, initial, [], [DASHES + [0x68, 0x65, 0x6c, 0x70] + [EQUALS] + x])
         == Scanned([TextEntry(s.opts[0], x)], [])
  {
    hide ScanArgs, ParseOptionValue;
    var initial := InitialEntries(s.opts);
    var name: Arg := [0x68, 0x65, 0x6c, 0x70];
    TextAlwaysParses(s.floats, s.opts[0], x);
    ReservedNameShadowed(s, initial, [], name, x, []);
    assert [DASHES + name, x] + [] == [DASHES + name, x];
    var a := Assignment(0, x, LongInline);
    ScanInline(s, initial, [], a, []);
    assert RenderOne(s, a) + [] == [DASHES + name + [EQUALS] + x];
    NothingLeft(s, initial[0 := TextEntry(s.opts[0], x)], []);
    assert initial[0 := TextEntry(s.opts[0], x)] == [TextEntry(s.opts[0], x)];
  }

  // ---- the round trip ----

  lemma {:induction false} ScanRendered(s: Surface, entries: seq<Entry>, assignments: seq<Assignment>,
                                        positionals: seq<Arg>)
    requires |entries| == |s.opts| && AllAssignable(s, assignments)
    ensures ScanArgs(s, entries, [], Render(s, assignments) + ([DASHES] + positionals))
         == Scanned(Assigned(s, entries, assignments), positionals)
    decreases |assignments|
  {
    hide RenderOne, Writable, Given, ParseOptionValue, Named, ApplyArg;
    if assignments == [] {
      Terminator(s, entries, positionals);
      assert [] + ([DASHES] + positionals) == [DASHES] + positionals;
    } else {
      var a := assignments[0];
      var rest := Render(s, assignments[1..]) + ([DASHES] + positionals);
      assert Render(s, assignments) + ([DASHES] + positionals) == RenderOne(s, a) + rest;
      ScanOne(s, entries, [], a, rest);
      ScanRendered(s, entries[a.option := Given(s, a)], assignments[1..], positionals);
    }
  }

  lemma ScanOne(s: Surface, entries: seq<Entry>, positionals: seq<Arg>, a: Assignment, rest: seq<Arg>)
    requires |entries| == |s.opts| && Assignable(s, a)
    ensures ScanArgs(s, entries, positionals, RenderOne(s, a) + rest)
         == ScanArgs(s, entries[a.option := Given(s, a)], positionals, rest)
  {
    hide ScanArgs, Given, RenderOne, Assignable;
    match a.form
    case LongInline => ScanInline(s, entries, positionals, a, rest);
    case LongSeparate => ScanSeparate(s, entries, positionals, a, rest);
    case ShortSeparate => ScanShortForm(s, entries, positionals, a, rest);
  }

  lemma Terminator(s: Surface, entries: seq<Entry>, positionals: seq<Arg>)
    requires |entries| == |s.opts|
    ensures ScanArgs(s, entries, [], [DASHES] + positionals) == Scanned(entries, positionals)
  {
    hide Named, ApplyArg;
    assert ([DASHES] + positionals)[1..] == positionals && [] + positionals == positionals;
  }

  /** An option nobody gave keeps its entry, and one given exactly once holds what it was given. */
  lemma {:induction false} AssignedAt(s: Surface, entries: seq<Entry>, assignments: seq<Assignment>, i: nat)
    requires |entries| == |s.opts| && AllAssignable(s, assignments) && i < |s.opts|
    ensures (forall k | 0 <= k < |assignments| :: assignments[k].option != i) ==>
      Assigned(s, entries, assignments)[i] == entries[i]
    ensures forall k | 0 <= k < |assignments| && assignments[k].option == i
        && (forall j | 0 <= j < |assignments| && j != k :: assignments[j].option != i) ::
      Assigned(s, entries, assignments)[i] == Given(s, assignments[k])
    decreases |assignments|
  {
    hide Writable, ParseOptionValue;
    if assignments != [] {
      var a := assignments[0];
      var after := entries[a.option := Given(s, a)];
      AssignedAt(s, after, assignments[1..], i);
      forall k | 0 <= k < |assignments| && assignments[k].option == i
          && (forall j | 0 <= j < |assignments| && j != k :: assignments[j].option != i)
        ensures Assigned(s, entries, assignments)[i] == Given(s, assignments[k])
      {
        var rest := assignments[1..];
        if k > 0 {
          assert rest[k - 1].option == i;
          assert forall j | 0 <= j < |rest| && j != k - 1 :: rest[j] == assignments[j + 1];
        } else {
          assert forall j | 0 <= j < |rest| :: rest[j] == assignments[j + 1];
        }
      }
    }
  }

  /** A flag that was given, once or more, is true. */
  lemma {:induction false} FlagsGiven(s: Surface, entries: seq<Entry>, assignments: seq<Assignment>, i: nat)
    requires |entries| == |s.opts| && AllAssignable(s, assignments) && i < |s.opts| && s.opts[i].flag
    ensures (exists k :: 0 <= k < |assignments| && assignments[k].option == i) ==>
      Assigned(s, entries, assignments)[i] == Scalar(s.opts[i].ty, BoolValue(true))
    ensures entries[i] == Scalar(s.opts[i].ty, BoolValue(true)) ==> Assigned(s, entries, assignments)[i] == entries[i]
    ensures (forall k | 0 <= k < |assignments| :: assignments[k].option != i) ==>
      Assigned(s, entries, assignments)[i] == entries[i]
    decreases |assignments|
  {
    hide Writable, ParseOptionValue;
    if assignments != [] {
      var a, rest := assignments[0], assignments[1..];
      FlagsGiven(s, entries[a.option := Given(s, a)], rest, i);
      assert forall k | 0 < k < |assignments| :: assignments[k] == rest[k - 1];
      if k :| 0 <= k < |assignments| && assignments[k].option == i {
        if k > 0 {
          assert rest[k - 1].option == i;
        }
      }
    }
  }

  /** Writing a value inline or separately makes no difference. */
  lemma {:induction false} FormsAgree(s: Surface, entries: seq<Entry>, a: seq<Assignment>, b: seq<Assignment>)
    requires |entries| == |s.opts| && AllAssignable(s, a) && AllAssignable(s, b)
    requires |a| == |b| && forall k | 0 <= k < |a| :: a[k].option == b[k].option && a[k].value == b[k].value
    ensures Assigned(s, entries, a) == Assigned(s, entries, b)
    decreases |a|
  {
    hide Writable, ParseOptionValue;
    if a != [] {
      FormsAgree(s, entries[a[0].option := Given(s, a[0])], a[1..], b[1..]);
    }
  }

  /** A value for a text option, whatever its bytes: nothing is asked but a name that can be written. */
  predicate TextAssignable(s: Surface, a: Assignment) {
    a.option < |s.opts| && Writable(s, a) && TakesText(s.opts[a.option])
  }

  lemma TextIsAssignable(s: Surface, a: Assignment)
    requires TextAssignable(s, a)
    ensures Assignable(s, a)
  {
    hide ParseOptionValue;
    TextAlwaysParses(s.floats, s.opts[a.option], a.value);
  }

  /** Unassigned options hold their defaults, and options assigned once their text. */
  ghost predicate HoldsTexts(s: Surface, assignments: seq<Assignment>, entries: seq<Entry>) {
    && |entries| == |s.opts|
    && (forall i | 0 <= i < |s.opts| && (forall k | 0 <= k < |assignments| :: assignments[k].option != i) ::
          entries[i] == InitialEntry(s.opts[i]))
    && (forall k | 0 <= k < |assignments| && OnlyFor(assignments, k) ::
          assignments[k].option < |s.opts|
          && entries[assignments[k].option] == TextEntry(s.opts[assignments[k].option], assignments[k].value))
  }

  /**
   * Any text values, rendered in either form and followed by the terminator and positionals, scan back: a text option
   * assigned once holds exactly its value, an unassigned option its default, and the positionals are those given.
   */
  lemma TextValuesRoundTrip(s: Surface, assignments: seq<Assignment>, positionals: seq<Arg>)
    requires forall k | 0 <= k < |assignments| :: TextAssignable(s, assignments[k])
    ensures AllAssignable(s, assignments)
    ensures var r := ScanArgs(s, InitialEntries(s.opts), [], Render(s, assignments) + ([DASHES] + positionals));
      r.Scanned? && r.positionals == positionals && HoldsTexts(s, assignments, r.entries)
  {
    hide ScanArgs, Render, Assignable, TextAssignable, Assigned, ParseOptionValue, InitialEntry, TextEntry, Given;
    forall k | 0 <= k < |assignments|
      ensures Assignable(s, assignments[k])
    {
      TextIsAssignable(s, assignments[k]);
    }
    var initial := InitialEntries(s.opts);
    ScanRendered(s, initial, assignments, positionals);
    forall i | 0 <= i < |s.opts|
      ensures (forall k | 0 <= k < |assignments| :: assignments[k].option != i) ==>
        Assigned(s, initial, assignments)[i] == InitialEntry(s.opts[i])
    {
      AssignedAt(s, initial, assignments, i);
    }
    forall k | 0 <= k < |assignments| && OnlyFor(assignments, k)
      ensures assignments[k].option < |s.opts|
      ensures Assigned(s, initial, assignments)[assignments[k].option]
           == TextEntry(s.opts[assignments[k].option], assignments[k].value)
    {
      TextNamed(s, assignments[k]);
      AssignedAt(s, initial, assignments, assignments[k].option);
    }
  }

  /** No other assignment is for the option of assignment k. */
  ghost predicate OnlyFor(assignments: seq<Assignment>, k: nat)
    requires k < |assignments|
  {
    forall j | 0 <= j < |assignments| && j != k :: assignments[j].option != assignments[k].option
  }

  lemma TextNamed(s: Surface, a: Assignment)
    requires TextAssignable(s, a)
    ensures a.option < |s.opts|
    ensures Assignable(s, a) && Given(s, a) == TextEntry(s.opts[a.option], a.value)
  {
    hide ParseOptionValue;
    TextAlwaysParses(s.floats, s.opts[a.option], a.value);
  }
}
