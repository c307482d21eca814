/** llvm/src/cli.rs `assign_operands` and `select_command`. */
module CliOperands {
  import opened Prelude
  import opened CliDescriptor
  import opened CliParse

  // ---- operands ----

  /** An item of a list entry: integers for a numeric list, handles otherwise, and null for what does not fit. */
  function ListItem(ty: u8, p: Payload): Payload {
    if ty == LISTA_NUMERUS then (if p.IntegerValue? then p else IntegerValue(0))
    else if p.TextValue? || p.OctetsValue? then p else NullValue
  }

  /** Every raw argument parses for the operand. */
  ghost predicate AllParse(floats: FloatTable, o: Operand, raws: seq<Arg>) {
    forall i | 0 <= i < |raws| :: ParseOperandPayload(floats, o, raws[i]).Some?
  }

  ghost function Items(floats: FloatTable, o: Operand, raws: seq<Arg>): seq<Payload>
    requires AllParse(floats, o, raws)
  {
    seq(|raws|, i requires 0 <= i < |raws| => ListItem(o.ty, ParseOperandPayload(floats, o, raws[i]).value))
  }

  /** How many of `left` positionals an operand takes. */
  function Takes(o: Operand, left: nat): (n: nat)
    ensures n <= left
  {
    if o.rest then left else Min(1, left)
  }

  /** The entry an operand yields from the positionals it takes: a list of all, the one, or its default. */
  ghost predicate EntryFrom(floats: FloatTable, o: Operand, taken: seq<Arg>, e: Entry) {
    if o.rest then AllParse(floats, o, taken) && e == ListEntry(o.ty, Items(floats, o, taken))
    else if taken != [] then
      && |taken| == 1 && ParseOperandPayload(floats, o, taken[0]).Some?
      && e == Scalar(o.ty, ParseOperandPayload(floats, o, taken[0]).value)
    else o.default.Some? && e == Scalar(o.ty, OperandDefault(o.ty, o.default.value))
  }

  /** Operands take positionals from the front, in order, and yield their entries; `unread` is left over. */
  ghost predicate Assigns(floats: FloatTable, operands: seq<Operand>, positionals: seq<Arg>, entries: seq<Entry>,
                          unread: seq<Arg>) {
    if operands == [] then entries == [] && unread == positionals
    else
      var n := Takes(operands[0], |positionals|);
      && entries != [] && EntryFrom(floats, operands[0], positionals[..n], entries[0])
      && Assigns(floats, operands[1..], positionals[n..], entries[1..], unread)
  }

  /** Some entries can be made of the positionals, with nothing left over. */
  ghost predicate Assignable(floats: FloatTable, operands: seq<Operand>, positionals: seq<Arg>) {
    exists entries :: Assigns(floats, operands, positionals, entries, [])
  }

  /** Where operand j starts taking: the operands before it took exactly the positionals before that. */
  ghost function ShareStart(operands: seq<Operand>, count: nat, j: nat): (r: nat)
    requires j <= |operands|
    ensures r <= count
    ensures j < |operands| ==> r <= ShareStart(operands, count, j + 1)
    decreases |operands|, |operands| - j
  {
    if j == 0 then 0
    else Takes(operands[0], count) + ShareStart(operands[1..], count - Takes(operands[0], count), j - 1)
  }

  /** The positionals operand j takes. */
  ghost function Share(operands: seq<Operand>, positionals: seq<Arg>, j: nat): seq<Arg>
    requires j < |operands|
  {
    positionals[ShareStart(operands, |positionals|, j)..ShareStart(operands, |positionals|, j + 1)]
  }

  /** The shares cover every positional that is not left over. */
  lemma {:induction false} SharesCover(floats: FloatTable, operands: seq<Operand>, positionals: seq<Arg>,
                                       entries: seq<Entry>, unread: seq<Arg>)
    requires Assigns(floats, operands, positionals, entries, unread)
    ensures |entries| == |operands| && |unread| <= |positionals|
    ensures ShareStart(operands, |positionals|, |operands|) == |positionals| - |unread|
    decreases |operands|
  {
    hide EntryFrom;
    if operands != [] {
      var n := Takes(operands[0], |positionals|);
      SharesCover(floats, operands[1..], positionals[n..], entries[1..], unread);
    }
  }

  lemma {:induction false} ShareEntry(floats: FloatTable, operands: seq<Operand>, positionals: seq<Arg>,
                                      entries: seq<Entry>, unread: seq<Arg>, j: nat)
    requires Assigns(floats, operands, positionals, entries, unread) && j < |operands| == |entries|
    ensures EntryFrom(floats, operands[j], Share(operands, positionals, j), entries[j])
    decreases |operands|
  {
    hide EntryFrom, ShareStart, Takes;
    var count := |positionals|;
    var n := Takes(operands[0], count);
    ShareStartStep(operands, count, j);
    ShareStartStep(operands, count, j + 1);
    if j == 0 {
      ShareStartStep(operands[1..], count - n, 0);
    } else {
      ShareEntry(floats, operands[1..], positionals[n..], entries[1..], unread, j - 1);
      ShareOf(positionals, n, ShareStart(operands[1..], count - n, j - 1), ShareStart(operands[1..], count - n, j));
    }
  }

  lemma ShareStartStep(operands: seq<Operand>, count: nat, j: nat)
    requires j <= |operands|
    ensures ShareStart(operands, count, j)
         == if j == 0 then 0
            else Takes(operands[0], count) + ShareStart(operands[1..], count - Takes(operands[0], count), j - 1)
  {
  }

  lemma ShareOf(positionals: seq<Arg>, n: nat, from: nat, to: nat)
    requires n <= |positionals| && from <= to <= |positionals| - n
    ensures positionals[n..][from..to] == positionals[from + n..to + n]
  {
  }

  /**
   * A successful assignment consumes every positional exactly once, in order: operand j's entry is made of the
   * positionals from its share's start to the next share's start, the first starts at 0 and the last ends at the end.
   */
  lemma OperandsConserve(floats: FloatTable, operands: seq<Operand>, positionals: seq<Arg>, entries: seq<Entry>)
    requires Assigns(floats, operands, positionals, entries, [])
    ensures |entries| == |operands|
    ensures ShareStart(operands, |positionals|, 0) == 0
    ensures ShareStart(operands, |positionals|, |operands|) == |positionals|
    ensures forall j | 0 <= j < |operands| ::
      EntryFrom(floats, operands[j], Share(operands, positionals, j), entries[j])
  {
    hide EntryFrom, Assigns;
    SharesCover(floats, operands, positionals, entries, []);
    forall j | 0 <= j < |operands|
      ensures EntryFrom(floats, operands[j], Share(operands, positionals, j), entries[j])
    {
      ShareEntry(floats, operands, positionals, entries, [], j);
    }
  }

  /** Entries and leftovers are determined by the operands and the positionals. */
  lemma {:induction false} AssignsUnique(floats: FloatTable, operands: seq<Operand>, positionals: seq<Arg>,
                                         a: seq<Entry>, u: seq<Arg>, b: seq<Entry>, v: seq<Arg>)
    requires Assigns(floats, operands, positionals, a, u) && Assigns(floats, operands, positionals, b, v)
    ensures a == b && u == v
    decreases |operands|
  {
    if operands != [] {
      var n := Takes(operands[0], |positionals|);
      AssignsUnique(floats, operands[1..], positionals[n..], a[1..], u, b[1..], v);
      assert a == [a[0]] + a[1..] && b == [b[0]] + b[1..];
    }
  }

  lemma {:induction false} AssignsAppend(floats: FloatTable, done: seq<Operand>, o: Operand, positionals: seq<Arg>,
                                         entries: seq<Entry>, unread: seq<Arg>, e: Entry)
    requires Assigns(floats, done, positionals, entries, unread)
    requires EntryFrom(floats, o, unread[..Takes(o, |unread|)], e)
    ensures Assigns(floats, done + [o], positionals, entries + [e], unread[Takes(o, |unread|)..])
    decreases |done|
  {
    hide EntryFrom, Takes;
    if done == [] {
      assert [] + [o] == [o] && entries + [e] == [e];
    } else {
      var n := Takes(done[0], |positionals|);
      AssignsAppend(floats, done[1..], o, positionals[n..], entries[1..], unread, e);
      assert (done + [o])[1..] == done[1..] + [o] && (entries + [e])[1..] == entries[1..] + [e];
    }
  }

  /** If no entry can be made for the operand that comes next, the whole list cannot be assigned. */
  lemma {:induction false} Stuck(floats: FloatTable, operands: seq<Operand>, k: nat, positionals: seq<Arg>,
                                 entries: seq<Entry>, unread: seq<Arg>)
    requires k < |operands| && Assigns(floats, operands[..k], positionals, entries, unread)
    requires forall e :: !EntryFrom(floats, operands[k], unread[..Takes(operands[k], |unread|)], e)
    ensures forall all, left :: !Assigns(floats, operands, positionals, all, left)
    decreases k
  {
    hide EntryFrom, Takes;
    if k > 0 {
      var n := Takes(operands[0], |positionals|);
      assert operands[..k][1..] == operands[1..][..k - 1];
      Stuck(floats, operands[1..], k - 1, positionals[n..], entries[1..], unread);
    }
  }

  /** Why an operand cannot be made of the positionals it takes: its first invalid one, or that there is none. */
  ghost predicate OperandError(floats: FloatTable, o: Operand, taken: seq<Arg>, e: ParseError) {
    if taken == [] then e == MissingOperand(o.binding)
    else exists i :: 0 <= i < |taken| && e == InvalidValue(taken[i]) && FirstInvalid(floats, o, taken, i)
  }

  ghost predicate FirstInvalid(floats: FloatTable, o: Operand, taken: seq<Arg>, i: nat)
    requires i < |taken|
  {
    ParseOperandPayload(floats, o, taken[i]).None? && AllParse(floats, o, taken[..i])
  }

  /** The refusal of an argument list: for the first operand that cannot be made, or else the first positional left. */
  ghost predicate Refuses(floats: FloatTable, operands: seq<Operand>, positionals: seq<Arg>, e: ParseError) {
    if operands == [] then positionals != [] && e == UnexpectedOperand(positionals[0])
    else
      var n := Takes(operands[0], |positionals|);
      if exists entry :: EntryFrom(floats, operands[0], positionals[..n], entry)
      then Refuses(floats, operands[1..], positionals[n..], e)
      else OperandError(floats, operands[0], positionals[..n], e)
  }

  /** Operands that were assigned do not matter for the refusal. */
  lemma {:induction false} RefusesAfter(floats: FloatTable, operands: seq<Operand>, k: nat, positionals: seq<Arg>,
                                        entries: seq<Entry>, unread: seq<Arg>, e: ParseError)
    requires k <= |operands| && Assigns(floats, operands[..k], positionals, entries, unread)
    requires Refuses(floats, operands[k..], unread, e)
    ensures Refuses(floats, operands, positionals, e)
    decreases k
  {
    hide EntryFrom, OperandError;
    if k > 0 {
      var n := Takes(operands[0], |positionals|);
      assert operands[..k][1..] == operands[1..][..k - 1] && operands[k..] == operands[1..][k - 1..];
      RefusesAfter(floats, operands[1..], k - 1, positionals[n..], entries[1..], unread, e);
    } else {
      assert operands[0..] == operands;
    }
  }

  /** `assign_operands`: succeeds exactly when the operands can take every positional. */
  method AssignOperands(floats: FloatTable, operands: seq<Operand>,
                        positionals: seq<Arg>) returns (r: Result<seq<Entry>, ParseError>)
    ensures r.Ok? <==> Assignable(floats, operands, positionals)
    ensures r.Ok? ==> Assigns(floats, operands, positionals, r.value, [])
    ensures r.Err? ==> Refuses(floats, operands, positionals, r.error)
  {
    hide Assigns, EntryFrom, AllParse, OperandError;
    var entries: seq<Entry> := [];
    var next := 0;
    var hasRest := exists o | o in operands :: o.rest;
    assert Assigns(floats, operands[..0], positionals, [], positionals[0..]) by {
      NothingAssigned(floats, operands, positionals);
    }
    for k := 0 to |operands|
      invariant next <= |positionals| && Assigns(floats, operands[..k], positionals, entries, positionals[next..])
      invariant (exists j :: 0 <= j < k && operands[j].rest) ==> next == |positionals|
    {
      var o := operands[k];
      ghost var unread := positionals[next..];
      var n := 0;
      if o.rest {
        n := |positionals| - next;
      } else if next < |positionals| {
        n := 1;
      }
      assert unread[..n] == positionals[next..next + n] && unread[n..] == positionals[next + n..];
      var e := OperandEntry(floats, o, positionals[next..next + n]);
      if e.Err? {
        Stuck(floats, operands, k, positionals, entries, unread);
        RefusesAfter(floats, operands, k, positionals, entries, unread, e.error);
        return Err(e.error);
      }
      AssignsAppend(floats, operands[..k], o, positionals, entries, unread, e.value);
      assert operands[..k + 1] == operands[..k] + [o];
      entries := entries + [e.value];
      next := next + n;
    }
    assert operands[..|operands|] == operands;
    if !hasRest && next < |positionals| {
      forall all | Assigns(floats, operands, positionals, all, [])
        ensures false
      {
        AssignsUnique(floats, operands, positionals, all, [], entries, positionals[next..]);
      }
      RefusesAfter(floats, operands, |operands|, positionals, entries, positionals[next..],
          UnexpectedOperand(positionals[next]));
      return Err(UnexpectedOperand(positionals[next]));
    }
    assert positionals[next..] == [];
    return Ok(entries);
  }

  lemma NothingAssigned(floats: FloatTable, operands: seq<Operand>, positionals: seq<Arg>)
    ensures Assigns(floats, operands[..0], positionals, [], positionals[0..])
  {
  }

  /** One operand's entry from the positionals it takes. */
  method OperandEntry(floats: FloatTable, o: Operand, taken: seq<Arg>) returns (r: Result<Entry, ParseError>)
    requires !o.rest ==> |taken| <= 1
    ensures r.Ok? ==> EntryFrom(floats, o, taken, r.value)
    ensures r.Err? ==> forall e :: !EntryFrom(floats, o, taken, e)
    ensures r.Err? ==> OperandError(floats, o, taken, r.error)
  {
    hide ParseOperandPayload, OperandDefault;
    if o.rest {
      var items: seq<Payload> := [];
      for i := 0 to |taken|
        invariant AllParse(floats, o, taken[..i]) && items == Items(floats, o, taken[..i])
      {
        var v := OperandPayload(floats, o, taken[i]);
        if v.None? {
          assert FirstInvalid(floats, o, taken, i);
          return Err(InvalidValue(taken[i]));
        }
        var item := v.value;
        if o.ty == LISTA_NUMERUS {
          item := if item.IntegerValue? then item else IntegerValue(0);
        } else if !item.TextValue? && !item.OctetsValue? {
          item := NullValue;
        }
        items := items + [item];
      }
      assert taken[..|taken|] == taken;
      return Ok(ListEntry(o.ty, items));
    }
    if taken != [] {
      var v := OperandPayload(floats, o, taken[0]);
      if v.None? {
        assert FirstInvalid(floats, o, taken, 0);
        return Err(InvalidValue(taken[0]));
      }
      return Ok(Scalar(o.ty, v.value));
    }
    if o.default.None? {
      return Err(MissingOperand(o.binding));
    }
    var d := OperandDefaultValue(o.ty, o.default.value);
    return Ok(Scalar(o.ty, d));
  }

  // ---- selecting a command ----

  const SLASH: u8 := 0x2F

  /** `alias_path`: the nonempty parts between slashes. */
  function AliasParts(alias: Arg, part: Arg): seq<Arg>
    decreases |alias|
  {
    if alias == [] then (if part == [] then [] else [part])
    else if alias[0] == SLASH then (if part == [] then [] else [part]) + AliasParts(alias[1..], [])
    else AliasParts(alias[1..], part + [alias[0]])
  }

  lemma SlashSpelling()
    ensures SLASH == ('/' as int)
  {
  }

  /** `parts` written with a slash after each. */
  function Slashed(parts: seq<Arg>): Arg {
    if parts == [] then [] else parts[0] + [SLASH] + Slashed(parts[1..])
  }

  /** Nonempty parts without slashes. */
  predicate AreParts(parts: seq<Arg>) {
    forall i | 0 <= i < |parts| :: parts[i] != [] && SLASH !in parts[i]
  }

  /** Reading up to a slash. */
  lemma {:induction false} AliasPartsTo(word: Arg, rest: Arg, part: Arg)
    requires SLASH !in word
    ensures AliasParts(word + rest, part) == AliasParts(rest, part + word)
    decreases |word|
  {
    if word == [] {
      assert word + rest == rest && part + word == part;
    } else {
      assert (word + rest)[1..] == word[1..] + rest && part + [word[0]] + word[1..] == part + word;
      assert SLASH !in word[1..];
      AliasPartsTo(word[1..], rest, part + [word[0]]);
    }
  }

  /** An alias written from parts splits into those parts, with or without slashes around them. */
  lemma {:induction false} AliasPartsOfSlashed(parts: seq<Arg>)
    requires AreParts(parts)
    ensures AliasParts(Slashed(parts), []) == parts
    ensures AliasParts([SLASH] + Slashed(parts), []) == parts
    ensures parts != [] ==> AliasParts(Slashed(parts)[..|Slashed(parts)| - 1], []) == parts
  {
    var all := Slashed(parts);
    assert ([SLASH] + all)[1..] == all && [] + AliasParts(all, []) == AliasParts(all, []);
    if parts != [] {
      var word, rest := parts[0], [SLASH] + Slashed(parts[1..]);
      AliasPartsOfSlashed(parts[1..]);
      assert Slashed(parts) == word + rest && rest[1..] == Slashed(parts[1..]) && [] + word == word;
      AliasPartsTo(word, rest, []);
      assert parts == [word] + parts[1..];
      var cut := rest[..|rest| - 1];
      assert Slashed(parts)[..|Slashed(parts)| - 1] == word + cut;
      AliasPartsTo(word, cut, []);
      if parts[1..] == [] {
        assert cut == [];
      } else {
        assert cut[0] == SLASH && cut[1..] == Slashed(parts[1..])[..|Slashed(parts[1..])| - 1];
      }
    }
  }

  /** Splitting yields nonempty parts without slashes. */
  lemma {:induction false} AliasPartsAreParts(alias: Arg, part: Arg)
    requires SLASH !in part
    ensures AreParts(AliasParts(alias, part))
    decreases |alias|
  {
    if alias != [] {
      AliasPartsAreParts(alias[1..], if alias[0] == SLASH then [] else part + [alias[0]]);
    }
  }

  /** The paths a command answers to: its own, then its aliases. */
  function Paths(c: Command): seq<seq<Arg>> {
    [PathOf(c)] + seq(|c.aliases|, i requires 0 <= i < |c.aliases| => AliasParts(c.aliases[i], []))
  }

  function PathOf(c: Command): seq<Arg> {
    seq(|c.path|, i requires 0 <= i < |c.path| => c.path[i])
  }

  /** Command `c` matches the parts with one of its paths, of length `n`. */
  ghost predicate Matches(c: Command, parts: seq<Arg>, n: nat) {
    exists k :: 0 <= k < |Paths(c)| && Paths(c)[k] <= parts && |Paths(c)[k]| == n
  }

  /** Command `c` matches the parts by its own path, or by the parts of one of its aliases. */
  lemma MatchesMeans(c: Command, parts: seq<Arg>, n: nat)
    ensures Matches(c, parts, n)
       <==> || (n == |c.path| <= |parts| && forall i | 0 <= i < n :: parts[i] == c.path[i])
            || exists k :: 0 <= k < |c.aliases| && AliasParts(c.aliases[k], []) <= parts
                           && |AliasParts(c.aliases[k], [])| == n
  {
    var paths := Paths(c);
    assert forall k | 0 <= k < |c.aliases| :: paths[k + 1] == AliasParts(c.aliases[k], []);
    assert paths[0] == PathOf(c);
    if n == |c.path| <= |parts| && forall i | 0 <= i < n :: parts[i] == c.path[i] {
      assert PathOf(c) == parts[..n];
    }
    if PathOf(c) <= parts {
      assert forall i | 0 <= i < |c.path| :: PathOf(c)[i] == parts[i];
    }
    if k :| 0 <= k < |paths| && paths[k] <= parts && |paths[k]| == n {
      if k > 0 {
        assert AliasParts(c.aliases[k - 1], []) <= parts;
      }
    }
  }

  /** The longest match, and among those the earliest command. */
  ghost predicate Selected(commands: seq<Command>, parts: seq<Arg>, i: nat, n: nat) {
    && i < |commands| && Matches(commands[i], parts, n)
    && (forall j, m: nat | 0 <= j < |commands| && Matches(commands[j], parts, m) :: m <= n)
    && (forall j | 0 <= j < i :: !Matches(commands[j], parts, n))
  }

  /** The best of the first paths of one command, after the best of the commands before it. */
  ghost predicate BestSoFar(commands: seq<Command>, parts: seq<Arg>, done: nat, paths: nat, best: Option<(nat, nat)>) {
    && done < |commands| && paths <= |Paths(commands[done])|
    && (forall j, m: nat | 0 <= j < done && Matches(commands[j], parts, m) :: best.Some? && m <= best.value.1)
    && (forall k | 0 <= k < paths && Paths(commands[done])[k] <= parts ::
          best.Some? && |Paths(commands[done])[k]| <= best.value.1)
    && (best.Some? ==>
          && best.value.0 <= done && Matches(commands[best.value.0], parts, best.value.1)
          && forall j | 0 <= j < best.value.0 :: !Matches(commands[j], parts, best.value.1))
  }

  /** `select_command`: a later candidate replaces the best only when it is strictly longer. */
  method SelectCommand(commands: seq<Command>, parts: seq<Arg>) returns (r: Option<nat>)
    ensures r.Some? ==> exists n :: Selected(commands, parts, r.value, n)
    ensures r.None? <==> forall j, n: nat | 0 <= j < |commands| :: !Matches(commands[j], parts, n)
  {
    hide Paths, Matches;
    var best: Option<(nat, nat)> := None;
    for i := 0 to |commands|
      invariant best.None? ==> forall j, m: nat | 0 <= j < i :: !Matches(commands[j], parts, m)
      invariant best.Some? ==> Selected(commands[..i], parts, best.value.0, best.value.1)
    {
      var paths := Paths(commands[i]);
      StartCommand(commands, parts, i, best);
      for k := 0 to |paths|
        invariant BestSoFar(commands, parts, i, k, best)
      {
        ghost var before := best;
        if paths[k] <= parts && (best.None? || |paths[k]| > best.value.1) {
          best := Some((i, |paths[k]|));
        }
        NextPath(commands, parts, i, k, before, best);
      }
      FinishCommand(commands, parts, i, best);
    }
    assert commands[..|commands|] == commands;
    if best.None? {
      return None;
    }
    assert Selected(commands, parts, best.value.0, best.value.1);
    return Some(best.value.0);
  }

  lemma StartCommand(commands: seq<Command>, parts: seq<Arg>, i: nat, best: Option<(nat, nat)>)
    requires i < |commands|
    requires best.None? ==> forall j, m: nat | 0 <= j < i :: !Matches(commands[j], parts, m)
    requires best.Some? ==> Selected(commands[..i], parts, best.value.0, best.value.1)
    ensures BestSoFar(commands, parts, i, 0, best)
  {
    hide Matches, Paths;
    if best.Some? {
      forall j | 0 <= j < i
        ensures commands[..i][j] == commands[j]
      {
      }
    }
  }

  lemma NextPath(commands: seq<Command>, parts: seq<Arg>, i: nat, k: nat, before: Option<(nat, nat)>,
                 after: Option<(nat, nat)>)
    requires BestSoFar(commands, parts, i, k, before) && k < |Paths(commands[i])|
    requires after == (if Paths(commands[i])[k] <= parts && (before.None? || |Paths(commands[i])[k]| > before.value.1)
                       then Some((i, |Paths(commands[i])[k]|)) else before)
    ensures BestSoFar(commands, parts, i, k + 1, after)
  {
    hide Paths;
  }

  lemma FinishCommand(commands: seq<Command>, parts: seq<Arg>, i: nat, best: Option<(nat, nat)>)
    requires i < |commands| && BestSoFar(commands, parts, i, |Paths(commands[i])|, best)
    ensures best.None? ==> forall j, m: nat | 0 <= j < i + 1 :: !Matches(commands[j], parts, m)
    ensures best.Some? ==> Selected(commands[..i + 1], parts, best.value.0, best.value.1)
  {
    hide Paths;
    forall m: nat | Matches(commands[i], parts, m)
      ensures best.Some? && m <= best.value.1
    {
      var k :| 0 <= k < |Paths(commands[i])| && Paths(commands[i])[k] <= parts && |Paths(commands[i])[k]| == m;
    }
  }
}
