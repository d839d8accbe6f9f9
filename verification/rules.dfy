/**
  The rule file: each line is split by a three-state machine into a command, a
  parameter (read only after the command `tempFolder`) and a path, and then
  turned into a typed rule. An unknown command, or a parameter `std::stoi`
  cannot convert, ends the program while the rules are still being parsed.
 */
module Rules {
  import opened Wrappers
  import Split
  import Numbers

  datatype RuleType = TempFolder | ArchiveFolder

  /** A typed rule; `param` is the maximum age of a temp-folder rule and 0 otherwise. */
  datatype Rule = Rule(path: string, kind: RuleType, param: int)

  /** The three texts the line parser collects. */
  datatype RuleFields = RuleFields(command: string, param: string, path: string)

  /** Why the rule file was rejected. */
  datatype ParseError = InvalidCommand(command: string) | InvalidNumber(param: string)

  /** The states of the line parser. */
  datatype RuleState = ReadingCommand | ReadingParam | ReadingPath

  const TempFolderCommand: string := "tempFolder"
  const ArchiveFolderCommand: string := "archiveFolder"

  /**
    The declarative split of a rule line: the command is the text before the
    first space; after `tempFolder` the remainder is split again into parameter
    and path, after any other command the whole remainder is the path.
   */
  function Fields(line: string): RuleFields
  {
    var command := Split.Head(line);
    var rest := Split.Tail(line);
    if command == TempFolderCommand then RuleFields(command, Split.Head(rest), Split.Tail(rest))
    else RuleFields(command, [], rest)
  }

  /** The parser's state and the three texts collected so far. */
  datatype Machine = Machine(state: RuleState, fields: RuleFields)

  /**
    One character of the parser. Non-space characters extend the command
    until the first space, which moves to the parameter state if the command
    read so far is `tempFolder` and to the path state otherwise; in the
    parameter state non-space characters extend the parameter until the next
    space moves to the path state; in the path state every character is kept.
   */
  function Step(m: Machine, c: char): Machine
  {
    var f := m.fields;
    match m.state
    case ReadingCommand =>
      if c != ' ' then Machine(ReadingCommand, f.(command := f.command + [c]))
      else if f.command == TempFolderCommand then Machine(ReadingParam, f)
      else Machine(ReadingPath, f)
    case ReadingParam =>
      if c != ' ' then Machine(ReadingParam, f.(param := f.param + [c]))
      else Machine(ReadingPath, f)
    case ReadingPath =>
      Machine(ReadingPath, f.(path := f.path + [c]))
  }

  /** What the parser holds after the first `i` characters of `line`, read declaratively. */
  ghost predicate Reached(line: string, i: nat, m: Machine)
  {
    var k := Split.SpaceIndex(line);
    var rest := Split.Tail(line);
    var f := m.fields;
    i <= |line| &&
    match m.state
    case ReadingCommand =>
      k >= i && f.command == line[..i] && f.param == [] && f.path == []
    case ReadingParam =>
      k < i && rest == line[k + 1..] && f.command == Split.Head(line)
      && f.command == TempFolderCommand && Split.SpaceIndex(rest) >= i - k - 1
      && f.param == rest[..i - k - 1] && f.path == []
    case ReadingPath =>
      k < i && rest == line[k + 1..] && f.command == Split.Head(line)
      && if f.command == TempFolderCommand then
           Split.SpaceIndex(rest) < i - k - 1 && f.param == Split.Head(rest)
           && f.path == rest[Split.SpaceIndex(rest) + 1..i - k - 1]
         else
           f.param == [] && f.path == rest[..i - k - 1]
  }

  lemma CommandStep(line: string, i: nat, m: Machine)
    requires i < |line| && Reached(line, i, m) && m.state == ReadingCommand
    ensures Reached(line, i + 1, Step(m, line[i]))
  {
    if line[i] != ' ' {
      assert line[..i + 1] == line[..i] + [line[i]];
    }
  }

  lemma ParamStep(line: string, i: nat, m: Machine)
    requires i < |line| && Reached(line, i, m) && m.state == ReadingParam
    ensures Reached(line, i + 1, Step(m, line[i]))
  {
    var k := Split.SpaceIndex(line);
    var rest := Split.Tail(line);
    assert rest[i - k - 1] == line[i];
    if line[i] != ' ' {
      assert rest[..i - k] == rest[..i - k - 1] + [line[i]];
    }
  }

  lemma PathStep(line: string, i: nat, m: Machine)
    requires i < |line| && Reached(line, i, m) && m.state == ReadingPath
    ensures Reached(line, i + 1, Step(m, line[i]))
  {
    var k := Split.SpaceIndex(line);
    var rest := Split.Tail(line);
    assert rest[i - k - 1] == line[i];
    if m.fields.command == TempFolderCommand {
      var j := Split.SpaceIndex(rest) + 1;
      assert rest[j..i - k] == rest[j..i - k - 1] + [line[i]];
    } else {
      assert rest[..i - k] == rest[..i - k - 1] + [line[i]];
    }
  }

  lemma ReachedStart(line: string)
    ensures Reached(line, 0, Machine(ReadingCommand, RuleFields([], [], [])))
  {
  }

  /** Having read the whole line, the parser holds exactly the declarative fields. */
  lemma ReachedEnd(line: string, m: Machine)
    requires Reached(line, |line|, m)
    ensures m.fields == Fields(line)
    ensures m.fields.command == Split.Head(line)
    ensures m.fields.command == TempFolderCommand ==>
      m.fields.param == Split.Head(Split.Tail(line)) && m.fields.path == Split.Tail(Split.Tail(line))
    ensures m.fields.command != TempFolderCommand ==>
      m.fields.param == [] && m.fields.path == Split.Tail(line)
  {
  }

  /**
    The character-by-character parser: the step function applied to every
    character of the line, in order, from the command state with nothing read.
   */
  method ParseRuleLine(line: string) returns (fields: RuleFields)
    ensures fields.command == Split.Head(line)
    ensures fields.command == TempFolderCommand ==>
      fields.param == Split.Head(Split.Tail(line)) && fields.path == Split.Tail(Split.Tail(line))
    ensures fields.command != TempFolderCommand ==>
      fields.param == [] && fields.path == Split.Tail(line)
    ensures fields == Fields(line)
  {
    var m := Machine(ReadingCommand, RuleFields([], [], []));
    ReachedStart(line);
    var i := 0;
    while i < |line|
      invariant Reached(line, i, m)
    {
      match m.state {
        case ReadingCommand => CommandStep(line, i, m);
        case ReadingParam => ParamStep(line, i, m);
        case ReadingPath => PathStep(line, i, m);
      }
      m := Step(m, line[i]);
      i := i + 1;
    }
    ReachedEnd(line, m);
    fields := m.fields;
  }

  /** Parsing `tempFolder <param> <path>` recovers parameter and path, spaces in the path included. */
  lemma TempFolderLineSplit(param: string, path: string)
    requires ' ' !in param
    ensures Fields(TempFolderCommand + " " + param + " " + path)
      == RuleFields(TempFolderCommand, param, path)
  {
    assert TempFolderCommand + " " + param + " " + path
      == TempFolderCommand + " " + (param + " " + path);
    Split.SplitOfJoin(TempFolderCommand, param + " " + path);
    Split.SplitOfJoin(param, path);
  }

  /** After any other command the remainder of the line, spaces included, is the path. */
  lemma OtherLineSplit(command: string, path: string)
    requires ' ' !in command && command != TempFolderCommand
    ensures Fields(command + " " + path) == RuleFields(command, [], path)
  {
    Split.SplitOfJoin(command, path);
  }

  /** Two spaces after `tempFolder` leave the parameter empty; the rest is the path. */
  lemma DoubleSpaceEmptyParam(path: string)
    ensures Fields(TempFolderCommand + "  " + path) == RuleFields(TempFolderCommand, [], path)
  {
    assert TempFolderCommand + "  " + path == TempFolderCommand + " " + [] + " " + path;
    TempFolderLineSplit([], path);
  }

  /**
    Rule construction: `tempFolder` gives a temp-folder rule whose parameter is
    the converted number, `archiveFolder` an archive-folder rule with parameter
    0; any other command is rejected, as is a parameter that does not convert.
   */
  function BuildRule(fields: RuleFields): (r: Result<Rule, ParseError>)
    ensures r.Success? ==> r.value.path == fields.path
    ensures r.Success? && r.value.kind == TempFolder <==>
      fields.command == TempFolderCommand && Numbers.Stoi(fields.param).Some?
    ensures r.Success? && r.value.kind == TempFolder ==>
      r.value.param == Numbers.Stoi(fields.param).value
    ensures r.Success? && r.value.kind == ArchiveFolder <==> fields.command == ArchiveFolderCommand
    ensures r.Success? && r.value.kind == ArchiveFolder ==> r.value.param == 0
    ensures r == Failure(InvalidCommand(fields.command)) <==>
      fields.command != TempFolderCommand && fields.command != ArchiveFolderCommand
    ensures r == Failure(InvalidNumber(fields.param)) <==>
      fields.command == TempFolderCommand && Numbers.Stoi(fields.param).None?
  {
    if fields.command == TempFolderCommand then
      match Numbers.Stoi(fields.param)
      case Some(n) => Success(Rule(fields.path, TempFolder, n))
      case None => Failure(InvalidNumber(fields.param))
    else if fields.command == ArchiveFolderCommand then
      Success(Rule(fields.path, ArchiveFolder, 0))
    else
      Failure(InvalidCommand(fields.command))
  }

  /** The outcome of building the rule for one line of the rule file. */
  function RuleOf(line: string): Result<Rule, ParseError>
  {
    BuildRule(Fields(line))
  }

  /**
    The rule-building loop over the lines' outcomes, in order: it stops at the
    first outcome that is an error and returns that error; if there is none it
    returns every rule, in order.
   */
  function CollectRules(results: seq<Result<Rule, ParseError>>): (r: Result<seq<Rule>, ParseError>)
    ensures r.Success? <==> forall i :: 0 <= i < |results| ==> results[i].Success?
    ensures r.Success? ==> |r.value| == |results|
    ensures r.Success? ==> forall i :: 0 <= i < |results| ==> r.value[i] == results[i].value
    ensures r.Failure? ==>
      exists j :: 0 <= j < |results| && results[j] == Failure(r.error)
        && (forall i :: 0 <= i < j ==> results[i].Success?)
  {
    if |results| == 0 then Success([])
    else
      match results[0]
      case Failure(e) => Failure(e)
      case Success(rule) =>
        var rest := CollectRules(results[1..]);
        assert forall i :: 0 <= i < |results| - 1 ==> results[1..][i] == results[i + 1];
        match rest
        case Failure(e) =>
          ghost var j :| 0 <= j < |results| - 1 && results[1..][j] == Failure(e)
            && (forall i :: 0 <= i < j ==> results[1..][i].Success?);
          assert results[j + 1] == Failure(e);
          Failure(e)
        case Success(rules) => Success([rule] + rules)
  }

  /** The outcome of every line of the rule file, in order. */
  function LineResults(lines: seq<string>): (results: seq<Result<Rule, ParseError>>)
    ensures |results| == |lines|
    ensures forall i :: 0 <= i < |lines| ==> results[i] == RuleOf(lines[i])
  {
    seq(|lines|, i requires 0 <= i < |lines| => RuleOf(lines[i]))
  }

  /**
    Parses the rule file line by line, in order. Either every line gives a
    rule and the rules come back in file order, or parsing stops at the first
    line that does not and nothing but that line's error comes back.
   */
  function ParseRules(lines: seq<string>): (r: Result<seq<Rule>, ParseError>)
    ensures r.Success? <==> forall i :: 0 <= i < |lines| ==> RuleOf(lines[i]).Success?
    ensures r.Success? ==> |r.value| == |lines|
    ensures r.Success? ==> forall i :: 0 <= i < |lines| ==> r.value[i] == RuleOf(lines[i]).value
    ensures r.Failure? ==>
      exists j :: 0 <= j < |lines| && RuleOf(lines[j]) == Failure(r.error)
        && (forall i :: 0 <= i < j ==> RuleOf(lines[i]).Success?)
  {
    CollectRules(LineResults(lines))
  }
}
