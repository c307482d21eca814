/** llvm/src/cli.rs `parse_surface`: options and operands of one command together. */
module CliSurface {
  import opened Prelude
  import opened CliDescriptor
  import opened CliParse
  import opened CliRoundTrip
  import opened CliOperands

  datatype Outcome = Parsed(entries: seq<Entry>) | Refused(error: ParseError) | ShowHelp | ShowVersion

  /** What parsing `args` against a surface amounts to: the scan, then the operands, options first in the record. */
  ghost predicate Parses(s: Surface, operands: seq<Operand>, args: seq<Arg>, r: Outcome) {
    match ScanArgs(s, InitialEntries(s.opts), [], args)
    case ScanFailed(e) => r == Refused(e)
    case HelpShown => r == ShowHelp
    case VersionShown => r == ShowVersion
    case Scanned(entries, positionals) =>
      && (r.Parsed? <==> CliOperands.Assignable(s.floats, operands, positionals)) && !r.ShowHelp? && !r.ShowVersion?
      && (r.Refused? ==> Refuses(s.floats, operands, positionals, r.error))
      && (r.Parsed? ==> Record(s.floats, operands, entries, positionals, r.entries))
  }

  ghost predicate Record(floats: FloatTable, operands: seq<Operand>, options: seq<Entry>, positionals: seq<Arg>,
                         entries: seq<Entry>) {
    && |options| <= |entries| && entries[..|options|] == options
    && Assigns(floats, operands, positionals, entries[|options|..], [])
  }

  method ParseSurface(s: Surface, operands: seq<Operand>, args: seq<Arg>) returns (r: Outcome)
    ensures Parses(s, operands, args, r)
  {
    hide ScanArgs, InitialEntry, Assigns, Refuses;
    var initial: seq<Entry> := [];
    for i := 0 to |s.opts|
      invariant initial == InitialEntries(s.opts)[..i]
    {
      var e := InitialOptionEntry(s.opts[i]);
      initial := initial + [e];
    }
    var entries := new Entry[|initial|](i requires 0 <= i < |initial| => initial[i]);
    assert entries[..] == initial == InitialEntries(s.opts);
    var scan := ScanArguments(s, entries, args);
    if scan.ScanFailed? {
      return Refused(scan.error);
    }
    if scan.HelpShown? {
      return ShowHelp;
    }
    if scan.VersionShown? {
      return ShowVersion;
    }
    var assignment := AssignOperands(s.floats, operands, scan.positionals);
    if assignment.Err? {
      return Refused(assignment.error);
    }
    r := Parsed(entries[..] + assignment.value);
    assert r.entries[|scan.entries|..] == assignment.value;
  }

  /**
   * Rendered assignments, the terminator and positionals parse back to exactly those assignments, the defaults of
   * every other option, and operands that take exactly those positionals.
   */
  lemma SurfaceRoundTrip(s: Surface, operands: seq<Operand>,
                         assignments: seq<Assignment>, positionals: seq<Arg>, r: Outcome)
    requires AllAssignable(s, assignments)
    requires Parses(s, operands, Render(s, assignments) + ([DASHES] + positionals), r)
    ensures r.Parsed? <==> CliOperands.Assignable(s.floats, operands, positionals)
    ensures r.Parsed? ==>
      Record(s.floats, operands, Assigned(s, InitialEntries(s.opts), assignments), positionals, r.entries)
  {
    hide ScanArgs, Assigned, Render, AllAssignable, CliOperands.Assignable, Record;
    ScanRendered(s, InitialEntries(s.opts), assignments, positionals);
  }

  /** Given flags are true in the record; absent ones are true only by a true default. */
  lemma FlagsRoundTrip(s: Surface, operands: seq<Operand>, assignments: seq<Assignment>, positionals: seq<Arg>,
                       r: Outcome, i: nat)
    requires AllAssignable(s, assignments) && i < |s.opts| && s.opts[i].flag
    requires Parses(s, operands, Render(s, assignments) + ([DASHES] + positionals), r) && r.Parsed?
    ensures i < |r.entries|
    ensures var given := exists k :: 0 <= k < |assignments| && assignments[k].option == i;
      r.entries[i] == Scalar(s.opts[i].ty, BoolValue(given || s.opts[i].default == Some(BoolDefault(true))))
  {
    hide ScanArgs, Render, AllAssignable, CliOperands.Assignable, Assigns;
    SurfaceRoundTrip(s, operands, assignments, positionals, r);
    FlagsGiven(s, InitialEntries(s.opts), assignments, i);
    assert r.entries[i] == r.entries[..|s.opts|][i];
  }

  /** For text options any values at all come back: each in its own entry of the record, defaults in the others. */
  lemma TextSurfaceRoundTrip(s: Surface, operands: seq<Operand>,
                             assignments: seq<Assignment>, positionals: seq<Arg>, r: Outcome)
    requires forall k | 0 <= k < |assignments| :: TextAssignable(s, assignments[k])
    requires AllAssignable(s, assignments)
    requires Parses(s, operands, Render(s, assignments) + ([DASHES] + positionals), r)
    ensures r.Parsed? <==> CliOperands.Assignable(s.floats, operands, positionals)
    ensures r.Parsed? ==>
      && |r.entries| == |s.opts| + |operands|
      && HoldsTexts(s, assignments, r.entries[..|s.opts|])
      && Assigns(s.floats, operands, positionals, r.entries[|s.opts|..], [])
  {
    hide ScanArgs, Render, AllAssignable, TextAssignable, CliOperands.Assignable, Assigns, HoldsTexts;
    TextValuesRoundTrip(s, assignments, positionals);
    var scan := ScanArgs(s, InitialEntries(s.opts), [], Render(s, assignments) + ([DASHES] + positionals));
    TextsCount(s, assignments, scan.entries);
    if r.Parsed? {
      SharesCover(s.floats, operands, positionals, r.entries[|s.opts|..], []);
    }
  }

  lemma TextsCount(s: Surface, assignments: seq<Assignment>, entries: seq<Entry>)
    requires HoldsTexts(s, assignments, entries)
    ensures |entries| == |s.opts|
  {
  }
}
