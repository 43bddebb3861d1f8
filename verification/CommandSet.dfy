/**
 * Compiling the commands of one configured operation into a command set: every command
 * that can be called stands for exactly one catalog operation, its flag rules fit that
 * operation's parser, and the hosts are those of the families reached.
 */
module CommandSet {
  import opened Options
  import opened OAuthPolicy

  datatype FlagRule = FlagRule(names: seq<string>, values: seq<string>)

  datatype Command = Command(path: seq<string>, flagRules: seq<FlagRule>)

  datatype Denial = Denial(path: seq<string>, flags: seq<string>)

  datatype Descriptor = Descriptor(operation: Operation, paths: seq<seq<string>>)

  datatype Compiled = Compiled(descriptors: seq<Descriptor>, noOAuthPaths: seq<seq<string>>)

  datatype Problem = LocalTakesFlags | UnqualifiedPath | UnqualifiedFlag | IncompatibleFlag | ForeignHosts

  datatype Outcome = Done(compiled: Compiled) | Refused(problem: Problem)

  const MAX_SAFE_INTEGER := 0x1F_FFFF_FFFF_FFFF

  // ---------- One command ----------

  // Denied whatever its flags.
  predicate Denied(denials: seq<Denial>, c: Command) {
    exists i :: 0 <= i < |denials| && denials[i].flags == [] && denials[i].path == c.path
  }

  predicate IsLocal(c: Command) {
    |c.path| == 1 && (c.path[0] == "--help" || c.path[0] == "--version" || c.path[0] == "version")
  }

  // The first catalog operation with that exact path.
  function Qualified(ops: seq<Operation>, path: seq<string>, from: nat := 0): (k: nat)
    requires from <= |ops|
    ensures from <= k <= |ops| && (k < |ops| ==> path in ops[k].paths)
    ensures forall j :: from <= j < k ==> path !in ops[j].paths
    decreases |ops| - from
  {
    if from == |ops| || path in ops[from].paths then from else Qualified(ops, path, from + 1)
  }

  function FlagNamed(flags: seq<Flag>, name: string, from: nat := 0): (k: nat)
    requires from <= |flags|
    ensures from <= k <= |flags| && (k < |flags| ==> flags[k].name == name || name in flags[k].aliases)
    ensures forall j :: from <= j < k ==> flags[j].name != name && name !in flags[j].aliases
    decreases |flags| - from
  {
    if from == |flags| || flags[from].name == name || name in flags[from].aliases then from else FlagNamed(flags, name, from + 1)
  }

  predicate IsDigit(c: char) { '0' <= c <= '9' }

  // Decimal digits without a leading zero.
  predicate CanonicalDigits(text: string) {
    text != [] && (forall i :: 0 <= i < |text| ==> IsDigit(text[i])) && (text[0] == '0' ==> |text| == 1)
  }

  function Number(text: string): nat
    requires forall i :: 0 <= i < |text| ==> IsDigit(text[i])
  {
    if text == [] then 0 else 10 * Number(text[..|text| - 1]) + DigitOf(text[|text| - 1])
  }

  function DigitOf(c: char): nat
    requires IsDigit(c)
  {
    c as int - '0' as int
  }

  // The characters that trimming removes.
  predicate IsBlank(c: char) {
    || '\U{0009}' <= c <= '\U{000D}' || c == ' ' || c == '\U{00A0}' || c == '\U{1680}' || '\U{2000}' <= c <= '\U{200A}'
    || c == '\U{2028}' || c == '\U{2029}' || c == '\U{202F}' || c == '\U{205F}' || c == '\U{3000}' || c == '\U{FEFF}'
  }

  predicate ValueFits(kind: FlagKind, value: string) {
    match kind
    case Choice(choices) => value in choices
    case Switch => value == "true"
    case Integer(minimum, maximum) =>
      CanonicalDigits(value) && Number(value) <= MAX_SAFE_INTEGER && minimum <= Number(value) <= maximum
    case Text => (exists i :: 0 <= i < |value| && !IsBlank(value[i])) && value[0] != '-'
  }

  predicate ValuesFit(kind: FlagKind, values: seq<string>) {
    forall i :: 0 <= i < |values| ==> ValueFits(kind, values[i])
  }

  predicate NameFits(op: Operation, rule: FlagRule, name: string) {
    var k := FlagNamed(op.flags, name);
    k < |op.flags| && ValuesFit(op.flags[k].kind, rule.values)
  }

  predicate RuleFits(op: Operation, rule: FlagRule) {
    forall n :: 0 <= n < |rule.names| ==> NameFits(op, rule, rule.names[n])
  }

  ghost predicate RulesFit(op: Operation, c: Command) {
    forall r :: 0 <= r < |c.flagRules| ==> RuleFits(op, c.flagRules[r])
  }

  // The first name of the first rule that does not fit.
  ghost predicate FirstMisfit(op: Operation, c: Command, r: int, n: int) {
    && 0 <= r < |c.flagRules| && 0 <= n < |c.flagRules[r].names| && !NameFits(op, c.flagRules[r], c.flagRules[r].names[n])
    && (forall j :: 0 <= j < r ==> RuleFits(op, c.flagRules[j]))
    && (forall j :: 0 <= j < n ==> NameFits(op, c.flagRules[r], c.flagRules[r].names[j]))
  }

  // Why the rules do not fit: an unknown flag, or a known one given a value it does not take.
  ghost predicate Misfits(op: Operation, c: Command, problem: Problem) {
    exists r, n :: FirstMisfit(op, c, r, n) && problem == MisfitOf(op, c.flagRules[r].names[n])
  }

  function MisfitOf(op: Operation, name: string): Problem {
    if FlagNamed(op.flags, name) == |op.flags| then UnqualifiedFlag else IncompatibleFlag
  }

  method CheckRules(op: Operation, c: Command) returns (problem: Option<Problem>)
    ensures problem.None? ==> RulesFit(op, c)
    ensures problem.Some? ==> Misfits(op, c, problem.value)
  {
    for r := 0 to |c.flagRules|
      invariant forall j :: 0 <= j < r ==> RuleFits(op, c.flagRules[j])
    {
      var rule := c.flagRules[r];
      for n := 0 to |rule.names|
        invariant forall j :: 0 <= j < n ==> NameFits(op, rule, rule.names[j])
      {
        var k := FlagNamed(op.flags, rule.names[n]);
        if k == |op.flags| {
          assert FirstMisfit(op, c, r, n);
          return Some(UnqualifiedFlag);
        }
        if !ValuesFit(op.flags[k].kind, rule.values) {
          assert FirstMisfit(op, c, r, n);
          return Some(IncompatibleFlag);
        }
      }
    }
    return None;
  }

  // ---------- The set ----------

  ghost predicate DistinctOperations(ops: seq<Operation>) {
    forall i, j :: 0 <= i < j < |ops| ==> ops[i].operationId != ops[j].operationId
  }

  // A command that can be called and needs an account.
  predicate Reaches(denials: seq<Denial>, c: Command) { !Denied(denials, c) && !IsLocal(c) }

  // Which operations are reached by the first commands.
  ghost predicate Reached(ops: seq<Operation>, denials: seq<Denial>, commands: seq<Command>, op: Operation) {
    exists i :: 0 <= i < |commands| && Reaches(denials, commands[i]) && StandsFor(ops, commands[i], op)
  }

  ghost predicate StandsFor(ops: seq<Operation>, c: Command, op: Operation) {
    var k := Qualified(ops, c.path);
    k < |ops| && ops[k] == op
  }

  // The operations collected are exactly those reached, once each.
  ghost predicate Collected(ops: seq<Operation>, denials: seq<Denial>, commands: seq<Command>, found: seq<Operation>) {
    && (forall op :: op in found <==> Reached(ops, denials, commands, op))
    && (forall i, j :: 0 <= i < j < |found| ==> found[i].operationId != found[j].operationId)
  }

  // A local command takes no flags; any other has an exact path in the catalog and rules that fit.
  ghost predicate InOrder(ops: seq<Operation>, c: Command) {
    if IsLocal(c) then c.flagRules == []
    else
      var k := Qualified(ops, c.path);
      k < |ops| && RulesFit(ops[k], c)
  }

  // Why a command is not in order.
  ghost predicate Troubles(ops: seq<Operation>, c: Command, problem: Problem) {
    if IsLocal(c) then c.flagRules != [] && problem == LocalTakesFlags
    else
      var k := Qualified(ops, c.path);
      if k == |ops| then problem == UnqualifiedPath else Misfits(ops[k], c, problem)
  }

  ghost predicate AllInOrder(ops: seq<Operation>, denials: seq<Denial>, commands: seq<Command>, upTo: nat)
    requires upTo <= |commands|
  {
    forall i :: 0 <= i < upTo ==> Denied(denials, commands[i]) || InOrder(ops, commands[i])
  }

  // The first command that can be called and is not in order, and why.
  ghost predicate FirstTrouble(ops: seq<Operation>, denials: seq<Denial>, commands: seq<Command>, i: int, problem: Problem) {
    && 0 <= i < |commands| && !Denied(denials, commands[i]) && Troubles(ops, commands[i], problem)
    && AllInOrder(ops, denials, commands, i)
  }

  // The local commands that can be called, in the order in which they are listed.
  function LocalPaths(denials: seq<Denial>, commands: seq<Command>): seq<seq<string>> {
    if commands == [] then []
    else
      var c := commands[|commands| - 1];
      LocalPaths(denials, commands[..|commands| - 1]) + if !Denied(denials, c) && IsLocal(c) then [c.path] else []
  }

  // Map.set by operation ID: with distinct IDs in the catalog a known operation stays where it is.
  function Add(found: seq<Operation>, op: Operation): seq<Operation> {
    if op in found then found else found + [op]
  }

  lemma CollectNext(ops: seq<Operation>, denials: seq<Denial>, commands: seq<Command>, c: Command, found: seq<Operation>)
    requires DistinctOperations(ops) && Collected(ops, denials, commands, found)
    requires Reaches(denials, c) && InOrder(ops, c)
    ensures Collected(ops, denials, commands + [c], Add(found, ops[Qualified(ops, c.path)]))
  {
    var all, op := commands + [c], ops[Qualified(ops, c.path)];
    var after := Add(found, op);
    forall x ensures x in after <==> Reached(ops, denials, all, x) {
      ReachedNext(ops, denials, commands, c, x);
    }
    forall i, j | 0 <= i < j < |after| ensures after[i].operationId != after[j].operationId {
      if j == |found| {
        assert after[i] in found;
        var n :| 0 <= n < |commands| && Reaches(denials, commands[n]) && StandsFor(ops, commands[n], after[i]);
        assert after[i] != op;
      }
    }
  }

  lemma ReachedNext(ops: seq<Operation>, denials: seq<Denial>, commands: seq<Command>, c: Command, op: Operation)
    ensures Reached(ops, denials, commands + [c], op) <==>
              Reached(ops, denials, commands, op) || (Reaches(denials, c) && StandsFor(ops, c, op))
  {
    var all := commands + [c];
    assert all[|commands|] == c;
    if Reached(ops, denials, commands, op) {
      var i :| 0 <= i < |commands| && Reaches(denials, commands[i]) && StandsFor(ops, commands[i], op);
      assert all[i] == commands[i];
    }
    if Reached(ops, denials, all, op) {
      var i :| 0 <= i < |all| && Reaches(denials, all[i]) && StandsFor(ops, all[i], op);
      assert i < |commands| ==> all[i] == commands[i];
    }
  }

  lemma SkipNext(ops: seq<Operation>, denials: seq<Denial>, commands: seq<Command>, c: Command, found: seq<Operation>)
    requires Collected(ops, denials, commands, found) && !Reaches(denials, c)
    ensures Collected(ops, denials, commands + [c], found)
  {
    forall x ensures x in found <==> Reached(ops, denials, commands + [c], x) {
      ReachedNext(ops, denials, commands, c, x);
    }
  }

  function FamilyHosts(hosts: map<Family, set<string>>, family: Family): set<string> {
    if family in hosts then hosts[family] else {}
  }

  // The configured hosts are those of the families reached.
  ghost predicate HostsAgree(ops: seq<Operation>, denials: seq<Denial>, commands: seq<Command>, hosts: map<Family, set<string>>,
                             configured: set<string>) {
    forall h :: h in configured <==> HostReached(ops, denials, commands, hosts, h)
  }

  ghost predicate HostReached(ops: seq<Operation>, denials: seq<Denial>, commands: seq<Command>, hosts: map<Family, set<string>>, h: string) {
    exists op :: Reached(ops, denials, commands, op) && h in FamilyHosts(hosts, op.family)
  }

  function Kept(paths: seq<seq<string>>, commands: seq<Command>): (kept: seq<seq<string>>)
    ensures forall p :: p in kept <==> p in paths && exists i :: 0 <= i < |commands| && commands[i].path == p
  {
    if paths == [] then []
    else
      assert paths == [paths[0]] + paths[1..];
      (if exists i :: 0 <= i < |commands| && commands[i].path == paths[0] then [paths[0]] else []) + Kept(paths[1..], commands)
  }

  // The compiled set describes exactly the operations the commands reach, once each, with the paths the commands spell out.
  ghost predicate SetSound(ops: seq<Operation>, denials: seq<Denial>, commands: seq<Command>, r: Compiled) {
    && (forall i, j :: 0 <= i < j < |r.descriptors| ==> r.descriptors[i].operation.operationId != r.descriptors[j].operation.operationId)
    && (forall d :: d in r.descriptors <==> Reached(ops, denials, commands, d.operation) && Describes(commands, d))
    && (forall op :: Reached(ops, denials, commands, op) ==> Kept(op.paths, commands) != [])
    && r.noOAuthPaths == LocalPaths(denials, commands)
  }

  ghost predicate Describes(commands: seq<Command>, d: Descriptor) { d.paths == Kept(d.operation.paths, commands) }

  // What the whole compilation is to return.
  ghost predicate IsOutcome(ops: seq<Operation>, denials: seq<Denial>, commands: seq<Command>, hosts: map<Family, set<string>>,
                            configured: set<string>, r: Outcome) {
    if !AllInOrder(ops, denials, commands, |commands|) then r.Refused? && exists i :: FirstTrouble(ops, denials, commands, i, r.problem)
    else if !HostsAgree(ops, denials, commands, hosts, configured) then r == Refused(ForeignHosts)
    else r.Done? && SetSound(ops, denials, commands, r.compiled)
  }

  /** Compiles the commands, or names the problem of the first that is not in order, or else the hosts. */
  method CompileCommandSet(ops: seq<Operation>, denials: seq<Denial>, commands: seq<Command>,
                           hosts: map<Family, set<string>>, configured: set<string>) returns (r: Outcome)
    requires DistinctOperations(ops)
    ensures IsOutcome(ops, denials, commands, hosts, configured, r)
  {
    var found, local, problem := CollectOperations(ops, denials, commands);
    if problem.Some? {
      return Refused(problem.value);
    }
    var expected := set i, h | 0 <= i < |found| && h in FamilyHosts(hosts, found[i].family) :: h;
    ExpectedIsReached(ops, denials, commands, hosts, found, expected);
    if expected != configured {
      return Refused(ForeignHosts);
    }
    var descriptors := seq(|found|, i requires 0 <= i < |found| => Descriptor(found[i], Kept(found[i].paths, commands)));
    r := Done(Compiled(descriptors, local));
    CollectedIsSound(ops, denials, commands, found, r.compiled);
  }

  // The loop over the commands.
  method CollectOperations(ops: seq<Operation>, denials: seq<Denial>, commands: seq<Command>)
    returns (found: seq<Operation>, local: seq<seq<string>>, problem: Option<Problem>)
    requires DistinctOperations(ops)
    ensures problem.Some? ==> !AllInOrder(ops, denials, commands, |commands|) && exists i :: FirstTrouble(ops, denials, commands, i, problem.value)
    ensures problem.None? ==>
              && AllInOrder(ops, denials, commands, |commands|)
              && Collected(ops, denials, commands, found) && local == LocalPaths(denials, commands)
  {
    found, local := [], [];
    for i := 0 to |commands|
      invariant AllInOrder(ops, denials, commands, i)
      invariant Collected(ops, denials, commands[..i], found)
      invariant local == LocalPaths(denials, commands[..i])
    {
      var c := commands[i];
      assert commands[..i + 1] == commands[..i] + [c] && commands[..i + 1][..i] == commands[..i];
      if Denied(denials, c) {
        SkipNext(ops, denials, commands[..i], c, found);
        continue;
      }
      problem := CheckCommand(ops, c);
      if problem.Some? {
        assert FirstTrouble(ops, denials, commands, i, problem.value);
        return;
      }
      if IsLocal(c) {
        SkipNext(ops, denials, commands[..i], c, found);
        local := local + [c.path];
      } else {
        CollectNext(ops, denials, commands[..i], c, found);
        found := Add(found, ops[Qualified(ops, c.path)]);
      }
    }
    assert commands[..|commands|] == commands;
    problem := None;
  }

  method CheckCommand(ops: seq<Operation>, c: Command) returns (problem: Option<Problem>)
    ensures problem.None? ==> InOrder(ops, c)
    ensures problem.Some? ==> !InOrder(ops, c) && Troubles(ops, c, problem.value)
  {
    if IsLocal(c) {
      return if c.flagRules == [] then None else Some(LocalTakesFlags);
    }
    var k := Qualified(ops, c.path);
    if k == |ops| {
      return Some(UnqualifiedPath);
    }
    problem := CheckRules(ops[k], c);
  }

  lemma ExpectedIsReached(ops: seq<Operation>, denials: seq<Denial>, commands: seq<Command>, hosts: map<Family, set<string>>,
                          found: seq<Operation>, expected: set<string>)
    requires Collected(ops, denials, commands, found)
    requires expected == set i, h | 0 <= i < |found| && h in FamilyHosts(hosts, found[i].family) :: h
    ensures forall h :: h in expected <==> HostReached(ops, denials, commands, hosts, h)
  {
    forall h ensures h in expected <==> HostReached(ops, denials, commands, hosts, h) {
      if h in expected {
        var i :| 0 <= i < |found| && h in FamilyHosts(hosts, found[i].family);
        assert found[i] in found;
      }
      if HostReached(ops, denials, commands, hosts, h) {
        var op :| Reached(ops, denials, commands, op) && h in FamilyHosts(hosts, op.family);
        assert op in found;
      }
    }
  }

  lemma CollectedIsSound(ops: seq<Operation>, denials: seq<Denial>, commands: seq<Command>, found: seq<Operation>, r: Compiled)
    requires Collected(ops, denials, commands, found) && r.noOAuthPaths == LocalPaths(denials, commands)
    requires |r.descriptors| == |found|
    requires forall i :: 0 <= i < |found| ==> r.descriptors[i] == Descriptor(found[i], Kept(found[i].paths, commands))
    ensures SetSound(ops, denials, commands, r)
  {
    forall d ensures d in r.descriptors <==> Reached(ops, denials, commands, d.operation) && Describes(commands, d) {
      if d in r.descriptors {
        var i :| 0 <= i < |found| && r.descriptors[i] == d;
        assert found[i] in found;
      }
      if Reached(ops, denials, commands, d.operation) && Describes(commands, d) {
        var i :| 0 <= i < |found| && found[i] == d.operation;
        assert r.descriptors[i] == d;
      }
    }
    forall op | Reached(ops, denials, commands, op) ensures Kept(op.paths, commands) != [] {
      var i :| 0 <= i < |commands| && Reaches(denials, commands[i]) && StandsFor(ops, commands[i], op);
      assert commands[i].path in Kept(op.paths, commands);
    }
  }

  /** The description leaves one outcome, up to the order of the descriptors. */
  lemma OutcomeIsDetermined(ops: seq<Operation>, denials: seq<Denial>, commands: seq<Command>, hosts: map<Family, set<string>>,
                            configured: set<string>, x: Outcome, y: Outcome)
    requires IsOutcome(ops, denials, commands, hosts, configured, x) && IsOutcome(ops, denials, commands, hosts, configured, y)
    ensures x.Refused? ==> x == y
    ensures x.Done? ==>
              && y.Done? && x.compiled.noOAuthPaths == y.compiled.noOAuthPaths
              && multiset(x.compiled.descriptors) == multiset(y.compiled.descriptors)
  {
    if !AllInOrder(ops, denials, commands, |commands|) {
      var i :| FirstTrouble(ops, denials, commands, i, x.problem);
      var j :| FirstTrouble(ops, denials, commands, j, y.problem);
      TroubledIsNotInOrder(ops, commands[i], x.problem);
      TroubledIsNotInOrder(ops, commands[j], y.problem);
      assert i == j;
      TroubleIsUnique(ops, commands[i], x.problem, y.problem);
    } else if x.Done? {
      SameDescriptors(x.compiled.descriptors, y.compiled.descriptors);
    }
  }

  lemma TroubledIsNotInOrder(ops: seq<Operation>, c: Command, problem: Problem)
    requires Troubles(ops, c, problem)
    ensures !InOrder(ops, c)
  {
  }

  lemma TroubleIsUnique(ops: seq<Operation>, c: Command, x: Problem, y: Problem)
    requires Troubles(ops, c, x) && Troubles(ops, c, y)
    ensures x == y
  {
    if !IsLocal(c) && Qualified(ops, c.path) < |ops| {
      var op := ops[Qualified(ops, c.path)];
      var r, n :| FirstMisfit(op, c, r, n) && x == MisfitOf(op, c.flagRules[r].names[n]);
      var s, m :| FirstMisfit(op, c, s, m) && y == MisfitOf(op, c.flagRules[s].names[m]);
      assert r == s;
      assert n == m;
    }
  }

  // ---------- What a refusal says ----------

  // A flag of the operation goes by that name.
  ghost predicate Goes(f: Flag, name: string) { f.name == name || name in f.aliases }

  ghost predicate NamesUnknownFlag(op: Operation, c: Command) {
    exists r, n :: 0 <= r < |c.flagRules| && n in c.flagRules[r].names && forall f :: f in op.flags ==> !Goes(f, n)
  }

  ghost predicate GivesUnfitValue(op: Operation, c: Command) {
    exists r, n, f, v :: 0 <= r < |c.flagRules| && n in c.flagRules[r].names && f in op.flags && Goes(f, n)
                         && v in c.flagRules[r].values && !ValueFits(f.kind, v)
  }

  // What a problem says about the command.
  ghost predicate Explains(ops: seq<Operation>, c: Command, problem: Problem) {
    match problem
    case LocalTakesFlags => (c.path == ["--help"] || c.path == ["--version"] || c.path == ["version"]) && c.flagRules != []
    case UnqualifiedPath => forall op :: op in ops ==> c.path !in op.paths
    case UnqualifiedFlag => exists op :: op in ops && c.path in op.paths && NamesUnknownFlag(op, c)
    case IncompatibleFlag => exists op :: op in ops && c.path in op.paths && GivesUnfitValue(op, c)
    case ForeignHosts => false
  }

  lemma TroubleExplained(ops: seq<Operation>, c: Command, problem: Problem)
    requires Troubles(ops, c, problem)
    ensures Explains(ops, c, problem)
  {
    if !IsLocal(c) && Qualified(ops, c.path) < |ops| {
      var op := ops[Qualified(ops, c.path)];
      var r, n :| FirstMisfit(op, c, r, n) && problem == MisfitOf(op, c.flagRules[r].names[n]);
      var rule, name := c.flagRules[r], c.flagRules[r].names[n];
      var k := FlagNamed(op.flags, name);
      assert op in ops && name in rule.names;
      if k < |op.flags| {
        var i :| 0 <= i < |rule.values| && !ValueFits(op.flags[k].kind, rule.values[i]);
        assert op.flags[k] in op.flags && Goes(op.flags[k], name) && rule.values[i] in rule.values;
        assert GivesUnfitValue(op, c);
      } else {
        forall f | f in op.flags ensures !Goes(f, name) {
          var j :| 0 <= j < |op.flags| && op.flags[j] == f;
        }
        assert NamesUnknownFlag(op, c);
      }
    }
  }

  /** The paths that need no account are those of the help and version commands that can be called. */
  lemma {:induction false} LocalPathsAre(denials: seq<Denial>, commands: seq<Command>, path: seq<string>)
    ensures path in LocalPaths(denials, commands) <==>
              && (path == ["--help"] || path == ["--version"] || path == ["version"])
              && exists i :: 0 <= i < |commands| && commands[i].path == path && !Denied(denials, commands[i])
  {
    if commands != [] {
      var before, last := commands[..|commands| - 1], commands[|commands| - 1];
      LocalPathsAre(denials, before, path);
      assert forall i :: 0 <= i < |before| ==> before[i] == commands[i];
    }
  }

  /** Every refusal is explained by the input: by a command that can be called, or by a host on one side only. */
  lemma RefusalIsExplained(ops: seq<Operation>, denials: seq<Denial>, commands: seq<Command>, hosts: map<Family, set<string>>,
                           configured: set<string>, problem: Problem)
    requires IsOutcome(ops, denials, commands, hosts, configured, Refused(problem))
    ensures problem != ForeignHosts ==> exists i :: 0 <= i < |commands| && !Denied(denials, commands[i]) && Explains(ops, commands[i], problem)
    ensures problem == ForeignHosts ==> exists h :: h in configured <==> !HostReached(ops, denials, commands, hosts, h)
  {
    if !AllInOrder(ops, denials, commands, |commands|) {
      var i :| FirstTrouble(ops, denials, commands, i, problem);
      TroubleExplained(ops, commands[i], problem);
    }
  }

  // Lists that hold the same descriptors, none of them twice, are the same up to order.
  lemma SameDescriptors(a: seq<Descriptor>, b: seq<Descriptor>)
    requires forall d :: d in a <==> d in b
    requires forall i, j :: 0 <= i < j < |a| ==> a[i].operation.operationId != a[j].operation.operationId
    requires forall i, j :: 0 <= i < j < |b| ==> b[i].operation.operationId != b[j].operation.operationId
    ensures multiset(a) == multiset(b)
  {
    forall d: Descriptor ensures multiset(a)[d] == multiset(b)[d] {
      OccursOnce(a, d);
      OccursOnce(b, d);
    }
  }

  lemma {:induction false} OccursOnce(a: seq<Descriptor>, d: Descriptor)
    requires forall i, j :: 0 <= i < j < |a| ==> a[i].operation.operationId != a[j].operation.operationId
    ensures multiset(a)[d] == if d in a then 1 else 0
  {
    if a != [] {
      var before, last := a[..|a| - 1], a[|a| - 1];
      assert a == before + [last];
      OccursOnce(before, d);
    }
  }

  /**
   * In a compiled profile every command that can be called stands for a catalog operation,
   * and everything that operation asks for is offered through the application of its family.
   */
  lemma CommandsAreCovered(c: Catalog, b: Bindings, authored: seq<Authored>, ops: seq<Operation>, p: Profile,
                           denials: seq<Denial>, commands: seq<Command>, hosts: map<Family, set<string>>,
                           configured: set<string>, compiled: Compiled, n: nat)
    requires BindsAll(b) && ProfileSound(c, b, authored, ops, p)
    requires IsOutcome(c.operations, denials, commands, hosts, configured, Done(compiled))
    requires forall i :: 0 <= i < |compiled.descriptors| ==> compiled.descriptors[i].operation in ops
    requires n < |commands| && Reaches(denials, commands[n])
    ensures var k := Qualified(c.operations, commands[n].path);
            && k < |c.operations| && RulesFit(c.operations[k], commands[n])
            && AskedIsOffered(c, b, p, c.operations[k]) && c.operations[k].operationId in p.operationIds
  {
    assert InOrder(c.operations, commands[n]);
    var op := c.operations[Qualified(c.operations, commands[n].path)];
    assert StandsFor(c.operations, commands[n], op);
    var d := Descriptor(op, Kept(op.paths, commands));
    assert d in compiled.descriptors;
    var j :| 0 <= j < |ops| && ops[j] == op;
  }
}
