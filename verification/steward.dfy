/**
  The program's top level: the rules are parsed first, all of them, and only
  then run, strictly in file order, each handed to the expiry sweep or to the
  archive-folder routine according to its type.
 */
module Steward {
  import opened Wrappers
  import Rules
  import Numbers

  /** A call the dispatch loop makes. */
  datatype Action =
    | CheckForExpiredFiles(path: string, maxAge: int)
    | ZipModifiedSubfolders(path: string)

  /** What one program run does: the calls made, or the error that ended it first. */
  datatype RunOutcome = Ran(actions: seq<Action>) | Aborted(error: Rules.ParseError)

  /**
    The call a rule is dispatched to: the expiry sweep, with the rule's path and
    parameter, exactly for temp-folder rules; the archive routine, with the
    rule's path, otherwise.
   */
  function ActionFor(rule: Rules.Rule): (action: Action)
    ensures action.CheckForExpiredFiles? <==> rule.kind == Rules.TempFolder
    ensures action.ZipModifiedSubfolders? <==> rule.kind == Rules.ArchiveFolder
    ensures action.path == rule.path
    ensures action.CheckForExpiredFiles? ==> action.maxAge == rule.param
  {
    match rule.kind
    case TempFolder => CheckForExpiredFiles(rule.path, rule.param)
    case ArchiveFolder => ZipModifiedSubfolders(rule.path)
  }

  /** The calls made for a list of rules: one per rule, in rule order. */
  function Dispatched(rules: seq<Rules.Rule>): (actions: seq<Action>)
    ensures |actions| == |rules|
    ensures forall i :: 0 <= i < |rules| ==> actions[i] == ActionFor(rules[i])
  {
    seq(|rules|, i requires 0 <= i < |rules| => ActionFor(rules[i]))
  }

  /**
    The dispatch loop: each rule is visited once, in order; temp-folder rules
    go to the expiry sweep with their path and parameter, archive-folder rules
    to the archive routine with their path.
   */
  method ImplementRules(rules: seq<Rules.Rule>) returns (actions: seq<Action>)
    ensures actions == Dispatched(rules)
    ensures |actions| == |rules|
    ensures forall i :: 0 <= i < |rules| && rules[i].kind == Rules.TempFolder ==>
      actions[i] == CheckForExpiredFiles(rules[i].path, rules[i].param)
    ensures forall i :: 0 <= i < |rules| && rules[i].kind == Rules.ArchiveFolder ==>
      actions[i] == ZipModifiedSubfolders(rules[i].path)
  {
    actions := [];
    var i := 0;
    while i < |rules|
      invariant 0 <= i <= |rules|
      invariant |actions| == i
      invariant forall j :: 0 <= j < i ==> actions[j] == ActionFor(rules[j])
    {
      match rules[i].kind {
        case TempFolder =>
          actions := actions + [CheckForExpiredFiles(rules[i].path, rules[i].param)];
        case ArchiveFolder =>
          actions := actions + [ZipModifiedSubfolders(rules[i].path)];
      }
      i := i + 1;
    }
  }

  /**
    One run over the lines of the rule file. Every line valid: one call per
    line, in line order. Some line invalid: no call at all, not even for the
    valid lines before it, and the error is the first invalid line's.
   */
  function Run(lines: seq<string>): (r: RunOutcome)
    ensures r.Ran? <==> forall i :: 0 <= i < |lines| ==> Rules.RuleOf(lines[i]).Success?
    ensures r.Ran? ==> |r.actions| == |lines|
    ensures r.Ran? ==> forall i :: 0 <= i < |lines| ==>
      r.actions[i] == ActionFor(Rules.RuleOf(lines[i]).value)
    ensures r.Aborted? ==>
      exists j :: 0 <= j < |lines| && Rules.RuleOf(lines[j]) == Failure(r.error)
        && (forall i :: 0 <= i < j ==> Rules.RuleOf(lines[i]).Success?)
  {
    match Rules.ParseRules(lines)
    case Failure(e) => Aborted(e)
    case Success(rules) => Ran(Dispatched(rules))
  }

  /** A bad line anywhere stops every rule, those declared before it included. */
  lemma AbortRunsNothing(valid: seq<string>, bad: string, later: seq<string>)
    requires forall i :: 0 <= i < |valid| ==> Rules.RuleOf(valid[i]).Success?
    requires Rules.RuleOf(bad).Failure?
    ensures Run(valid + [bad] + later) == Aborted(Rules.RuleOf(bad).error)
  {
    var lines := valid + [bad] + later;
    assert lines[|valid|] == bad;
    assert forall i :: 0 <= i < |valid| ==> lines[i] == valid[i];
  }

  lemma StoiThirty()
    ensures Numbers.Stoi("30") == Some(30)
  {
    Numbers.StoiOfDigits("30");
    assert Numbers.DigitsValue("30") == 30;
  }

  lemma TempCacheText()
    ensures Rules.TempFolderCommand + " " + "30" + " " + "/tmp/cache" == "tempFolder 30 /tmp/cache"
  {
  }

  lemma TempCacheFields()
    ensures Rules.Fields("tempFolder 30 /tmp/cache") == Rules.RuleFields("tempFolder", "30", "/tmp/cache")
  {
    TempCacheText();
    Rules.TempFolderLineSplit("30", "/tmp/cache");
  }

  lemma TempCacheLine()
    ensures Rules.RuleOf("tempFolder 30 /tmp/cache") == Success(Rules.Rule("/tmp/cache", Rules.TempFolder, 30))
  {
    TempCacheFields();
    StoiThirty();
  }

  lemma ArchiveDataText()
    ensures "archiveFolder" + " " + "/backups/data" == "archiveFolder /backups/data"
  {
  }

  lemma ArchiveDataLine()
    ensures Rules.RuleOf("archiveFolder /backups/data") == Success(Rules.Rule("/backups/data", Rules.ArchiveFolder, 0))
  {
    ArchiveDataText();
    Rules.OtherLineSplit("archiveFolder", "/backups/data");
  }

  /** Two valid lines give exactly their two calls, in line order. */
  lemma TwoValidLines(a: string, b: string)
    requires Rules.RuleOf(a).Success? && Rules.RuleOf(b).Success?
    ensures Run([a, b]) == Ran([ActionFor(Rules.RuleOf(a).value), ActionFor(Rules.RuleOf(b).value)])
  {
    var lines := [a, b];
    assert lines[0] == a && lines[1] == b;
    var r := Run(lines);
    assert r.Ran?;
    assert |r.actions| == 2;
    assert r.actions[0] == ActionFor(Rules.RuleOf(a).value);
    assert r.actions[1] == ActionFor(Rules.RuleOf(b).value);
  }

  /** A temp-folder rule and an archive-folder rule give exactly two calls, in that order. */
  lemma TwoRuleScenario()
    ensures Run(["tempFolder 30 /tmp/cache", "archiveFolder /backups/data"])
      == Ran([CheckForExpiredFiles("/tmp/cache", 30), ZipModifiedSubfolders("/backups/data")])
  {
    TempCacheLine();
    ArchiveDataLine();
    TwoValidLines("tempFolder 30 /tmp/cache", "archiveFolder /backups/data");
  }

  lemma FooBarText()
    ensures "fooBar" + " " + "/x" == "fooBar /x"
  {
  }

  lemma FooBarLine()
    ensures Rules.RuleOf("fooBar /x") == Failure(Rules.InvalidCommand("fooBar"))
  {
    FooBarText();
    Rules.OtherLineSplit("fooBar", "/x");
  }

  lemma ValidValidInvalid(a: string, b: string, c: string)
    requires Rules.RuleOf(a).Success? && Rules.RuleOf(b).Success? && Rules.RuleOf(c).Failure?
    ensures Run([a, b, c]) == Aborted(Rules.RuleOf(c).error)
  {
    var lines := [a, b, c];
    assert lines[0] == a && lines[1] == b && lines[2] == c;
    var r := Run(lines);
    assert r.Aborted?;
    var j :| 0 <= j < 3 && Rules.RuleOf(lines[j]) == Failure(r.error)
      && (forall i :: 0 <= i < j ==> Rules.RuleOf(lines[i]).Success?);
    assert j == 2;
  }

  /** Adding an unknown command stops the run before either earlier rule is executed. */
  lemma UnknownCommandScenario()
    ensures Run(["tempFolder 30 /tmp/cache", "archiveFolder /backups/data", "fooBar /x"])
      == Aborted(Rules.InvalidCommand("fooBar"))
  {
    TempCacheLine();
    ArchiveDataLine();
    FooBarLine();
    ValidValidInvalid("tempFolder 30 /tmp/cache", "archiveFolder /backups/data", "fooBar /x");
  }
}
