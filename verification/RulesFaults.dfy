/** What can be wrong with a rules program, and what each refusal says of it
    (backends/rustev-backend-rules/src/program.rs). */
module RulesFaults {
  import opened JsonGrammar
  import opened P = RulesProgram

  datatype What =
    | BackendIdBytes | ProjectionBytes | Tasks | TaskBytes | QuestionBytes | Options | OptionBytes
    | InterpretationBytes | Fields | FieldNameBytes | OptionConstants | Rules | RuleNameBytes
    | ConditionNodes | ConditionDepth | ConditionMembers | TermsInCondition | TermBytes | TermsPerTask
    | Contributions | LookupEntries | LookupKeyBytes | EntriesPerTask

  datatype Item = ATask | AnOption | AField | ARule | AKey

  /** Why a program is refused; where is not part of this model. */
  datatype Kind =
    | Schema(schema: Str)
    | BackendId
    | Bound(what: What, min: nat, max: nat, found: nat)
    | UnsupportedOperation
    | PropositionOptions
    | Duplicate(item: Item, name: Str)
    | UnknownOption(name: Str)
    | UnknownField(name: Str)
    | Reference(reference: Str)
    | WrongType(field: Str, ty: FieldType)
    | EqualsValue(text: Str)
    | Interpretation

  // What `e` says of each part is so.

  /** It reports the count `found` of `what`, which is out of bounds. */
  predicate OutOf(e: Kind, what: What, found: nat, min: nat, max: nat) {
    e == Bound(what, min, max, found) && !Within(found, min, max)
  }

  /** It reports a name that two of `names` are. */
  predicate Repeats(e: Kind, item: Item, names: seq<Str>) {
    e.Duplicate? && e.item == item && exists i, j :: 0 <= i < j < |names| && names[i] == names[j] == e.name
  }

  predicate ConstantsFault(options: seq<Str>, cs: Constants, mayBeEmpty: bool, e: Kind) {
    || (cs == [] && !mayBeEmpty && OutOf(e, OptionConstants, 0, 1, OPTIONS))
    || exists i :: 0 <= i < |cs| && cs[i].option !in options && e == UnknownOption(cs[i].option)
  }

  /** The field is declared with an accepted type. */
  predicate Usable(fields: seq<Field>, name: Str, accepts: seq<FieldType>) {
    exists ty :: ty in accepts && Declares(fields, name, ty)
  }

  /** The field is not declared, or with a type that is not accepted. */
  predicate FieldFault(fields: seq<Field>, name: Str, accepts: seq<FieldType>, e: Kind) {
    || (e == UnknownField(name) && forall i | 0 <= i < |fields| :: fields[i].name != name)
    || (e.WrongType? && e.field == name && Declares(fields, name, e.ty) && e.ty !in accepts)
  }

  const TEXTS := [TText]
  const DISCRETE := [TText, TBool, TInteger]
  const NUMERIC := [TInteger, TDecimal]

  /** Wherever it is in the condition. */
  ghost predicate ConditionFault(fields: seq<Field>, c: Condition, e: Kind) {
    match c
    case Always => false
    case ContainsAny(f, terms) =>
      || FieldFault(fields, f, TEXTS, e)
      || OutOf(e, TermsInCondition, |terms|, 1, TERMS)
      || exists i :: 0 <= i < |terms| && OutOf(e, TermBytes, Len(terms[i]), 1, TERM_BYTES)
    case Equals(f, t) =>
      || FieldFault(fields, f, DISCRETE, e)
      || (e == EqualsValue(t) && exists ty :: Discrete(ty) && Declares(fields, f, ty) && !IsValueText(ty, t))
    case Compare(f, _, _) => FieldFault(fields, f, NUMERIC, e)
    case All(ms) =>
      || OutOf(e, ConditionMembers, |ms|, 1, CONDITION_MEMBERS)
      || exists i :: 0 <= i < |ms| && ConditionFault(fields, ms[i], e)
    case Any(ms) =>
      || OutOf(e, ConditionMembers, |ms|, 1, CONDITION_MEMBERS)
      || exists i :: 0 <= i < |ms| && ConditionFault(fields, ms[i], e)
    case Not(x) => ConditionFault(fields, x, e)
  }

  /** How deep a condition nests. */
  function Nesting(c: Condition): nat {
    match c
    case All(ms) => 1 + Nestings(ms, |ms|)
    case Any(ms) => 1 + Nestings(ms, |ms|)
    case Not(x) => 1 + Nesting(x)
    case _ => 0
  }

  /** The deepest nesting of the first `n`. */
  function Nestings(ms: seq<Condition>, n: nat): nat
    requires n <= |ms|
  {
    if n == 0 then 0 else Max(Nestings(ms, n - 1), Nesting(ms[n - 1]))
  }

  /** Counting stops at the first node, or level, too many. */
  const TOO_MANY_NODES := Bound(ConditionNodes, 1, CONDITION_NODES, CONDITION_NODES + 1)
  const TOO_DEEP := Bound(ConditionDepth, 0, CONDITION_DEPTH, CONDITION_DEPTH + 1)

  /** In a condition `depth` levels down in one of which `nodes` nodes were seen. */
  ghost predicate NestedFault(fields: seq<Field>, c: Condition, depth: nat, nodes: nat, e: Kind) {
    || ConditionFault(fields, c, e)
    || (e == TOO_MANY_NODES && nodes + NodeCount(c) > CONDITION_NODES)
    || (e == TOO_DEEP && depth + Nesting(c) > CONDITION_DEPTH)
  }

  predicate EntryFault(options: seq<Str>, entry: LookupEntry, e: Kind) {
    OutOf(e, LookupKeyBytes, Len(entry.key), 1, LOOKUP_KEY_BYTES) || ConstantsFault(options, entry.add, false, e)
  }

  function KeysOf(es: seq<LookupEntry>): seq<Str> {
    seq(|es|, i requires 0 <= i < |es| => es[i].key)
  }

  predicate EntriesFault(options: seq<Str>, es: seq<LookupEntry>, e: Kind) {
    Repeats(e, AKey, KeysOf(es)) || exists i :: 0 <= i < |es| && EntryFault(options, es[i], e)
  }

  predicate ContributionFault(fields: seq<Field>, options: seq<Str>, c: Contribution, e: Kind) {
    match c
    case Add(cs) => ConstantsFault(options, cs, false, e)
    case Linear(f, cs) => FieldFault(fields, f, NUMERIC, e) || ConstantsFault(options, cs, false, e)
    case Lookup(f, es, _) =>
      || FieldFault(fields, f, DISCRETE, e)
      || OutOf(e, LookupEntries, |es|, 1, LOOKUP_ENTRIES)
      || EntriesFault(options, es, e)
  }

  ghost predicate RuleFault(fields: seq<Field>, options: seq<Str>, r: Rule, e: Kind) {
    || OutOf(e, RuleNameBytes, Len(r.name), 1, NAME_BYTES)
    || NestedFault(fields, r.cond, 0, 0, e)
    || OutOf(e, Contributions, |r.contributions|, 0, CONTRIBUTIONS)
    || exists i :: 0 <= i < |r.contributions| && ContributionFault(fields, options, r.contributions[i], e)
  }

  predicate OptionsFault(t: Task, e: Kind) {
    || OutOf(e, Options, |t.options|, if t.operation == Rank then 1 else OPTIONS_MIN, OPTIONS)
    || (exists i :: 0 <= i < |t.options| && OutOf(e, OptionBytes, Len(t.options[i]), 1, OPTION_BYTES))
    || Repeats(e, AnOption, t.options)
    || (e == PropositionOptions && t.operation == Proposition && t.options != [Of("false"), Of("true")])
  }

  function FieldNames(fs: seq<Field>): seq<Str> {
    seq(|fs|, i requires 0 <= i < |fs| => fs[i].name)
  }

  ghost predicate FieldsFault(fs: seq<Field>, e: Kind) {
    || OutOf(e, Fields, |fs|, 0, FIELDS)
    || (exists i :: 0 <= i < |fs| && OutOf(e, FieldNameBytes, Len(fs[i].name), 1, NAME_BYTES))
    || Repeats(e, AField, FieldNames(fs))
    || exists i :: 0 <= i < |fs| && e == Reference(fs[i].reference) && forall k, m :: !Refers(fs[i].reference, k, m)
  }

  function RuleNames(rs: seq<Rule>): seq<Str> {
    seq(|rs|, i requires 0 <= i < |rs| => rs[i].name)
  }

  ghost predicate RulesFault(t: Task, e: Kind) {
    || OutOf(e, What.Rules, |t.rules|, 0, RULES)
    || Repeats(e, ARule, RuleNames(t.rules))
    || (exists i :: 0 <= i < |t.rules| && RuleFault(t.fields, t.options, t.rules[i], e))
    || OutOf(e, TermsPerTask, TermsInRules(t.rules, |t.rules|), 0, TERMS_PER_TASK)
    || OutOf(e, EntriesPerTask, EntriesInRules(t.rules, |t.rules|), 0, LOOKUP_ENTRIES_PER_TASK)
  }

  ghost predicate TaskFault(t: Task, e: Kind) {
    || (e == UnsupportedOperation && t.operation == Rank && t.options != [Of("score")])
    || OutOf(e, TaskBytes, Len(t.task), 1, TASK_BYTES)
    || OutOf(e, QuestionBytes, Len(t.question), 1, QUESTION_BYTES)
    || OptionsFault(t, e)
    || OutOf(e, InterpretationBytes, Len(t.interpretation), 1, INTERPRETATION_BYTES)
    || (e == Interpretation && Blank(t.interpretation))
    || FieldsFault(t.fields, e)
    || ConstantsFault(t.options, t.base, true, e)
    || RulesFault(t, e)
  }

  function TaskNames(ts: seq<Task>): seq<Str> {
    seq(|ts|, i requires 0 <= i < |ts| => ts[i].task)
  }

  const SCHEMA := Of("rustev.rules/1")

  ghost predicate ProgramFault(p: Program, e: Kind) {
    || (e == Schema(if |p.schema| > 80 then p.schema[..80] else p.schema) && p.schema != SCHEMA)
    || (e == BackendId && (!Within(Len(p.backendId), 1, BACKEND_ID_BYTES)
                           || exists i :: 0 <= i < |p.backendId| && !IdChar(p.backendId[i])))
    || OutOf(e, ProjectionBytes, p.maxProjectionBytes, 1, MAX_PROJECTION_BYTES)
    || OutOf(e, What.Tasks, |p.tasks|, 1, TASKS)
    || Repeats(e, ATask, TaskNames(p.tasks))
    || exists i :: 0 <= i < |p.tasks| && TaskFault(p.tasks[i], e)
  }

  lemma {:induction false} NestingsGrow(ms: seq<Condition>, k: nat, n: nat)
    requires k < n <= |ms|
    ensures Nesting(ms[k]) <= Nestings(ms, n)
  {
    if k < n - 1 {
      NestingsGrow(ms, k, n - 1);
    }
  }

  lemma {:induction false} NodesGrow(ms: seq<Condition>, k: nat, n: nat)
    requires k <= n <= |ms|
    ensures NodeCounts(ms, k) <= NodeCounts(ms, n)
  {
    if k < n {
      NodesGrow(ms, k, n - 1);
    }
  }

  /** A fault of a member is a fault of the condition. */
  lemma MemberFault(fields: seq<Field>, c: Condition, ms: seq<Condition>, k: nat, depth: nat, nodes: nat, e: Kind)
    requires c == All(ms) || c == Any(ms)
    requires nodes > 0 && k < |ms| && NestedFault(fields, ms[k], depth + 1, nodes + NodeCounts(ms, k), e)
    ensures NestedFault(fields, c, depth, nodes - 1, e)
  {
    hide ConditionFault, Nestings, NodeCounts;
    NodesThrough(ms, k);
    NestingsGrow(ms, k, |ms|);
    InnerFault(fields, c, ms, k, e);
    assert NodeCount(c) == 1 + NodeCounts(ms, |ms|) && Nesting(c) == 1 + Nestings(ms, |ms|);
  }

  lemma NodesThrough(ms: seq<Condition>, k: nat)
    requires k < |ms|
    ensures NodeCounts(ms, k) + NodeCount(ms[k]) <= NodeCounts(ms, |ms|)
  {
    NodesGrow(ms, k + 1, |ms|);
  }

  lemma InnerFault(fields: seq<Field>, c: Condition, ms: seq<Condition>, k: nat, e: Kind)
    requires (c == All(ms) || c == Any(ms)) && k < |ms|
    ensures ConditionFault(fields, ms[k], e) ==> ConditionFault(fields, c, e)
  {}

  lemma TooDeepFault(fields: seq<Field>, c: Condition, ms: seq<Condition>, depth: nat, nodes: nat)
    requires c == All(ms) || c == Any(ms)
    requires nodes > 0 && depth >= CONDITION_DEPTH
    ensures NestedFault(fields, c, depth, nodes - 1, TOO_DEEP)
  {}

  lemma CountFault(fields: seq<Field>, c: Condition, ms: seq<Condition>, depth: nat, nodes: nat, e: Kind)
    requires c == All(ms) || c == Any(ms)
    requires nodes > 0 && OutOf(e, ConditionMembers, |ms|, 1, CONDITION_MEMBERS)
    ensures NestedFault(fields, c, depth, nodes - 1, e)
  {}

  // -------------------------------------------------- what fits has no fault

  /** A field that is fit for use is declared with an accepted type, and once. */
  lemma UsableField(fields: seq<Field>, name: Str, accepts: seq<FieldType>, ty: FieldType, e: Kind)
    requires forall i, j | 0 <= i < j < |fields| :: fields[i].name != fields[j].name
    requires ty in accepts && Declares(fields, name, ty)
    ensures !FieldFault(fields, name, accepts, e)
  {}

  lemma {:induction false} FittingCondition(fields: seq<Field>, c: Condition, room: nat, e: Kind)
    requires forall i, j | 0 <= i < j < |fields| :: fields[i].name != fields[j].name
    requires ConditionFits(fields, c, room)
    ensures !ConditionFault(fields, c, e) && Nesting(c) <= room
  {
    hide IsValueText, FieldFault;
    match c
    case Always =>
    case ContainsAny(f, _) => UsableField(fields, f, TEXTS, TText, e);
    case Equals(f, t) =>
      var ty :| Discrete(ty) && Declares(fields, f, ty) && IsValueText(ty, t);
      UsableField(fields, f, DISCRETE, ty, e);
    case Compare(f, _, _) =>
      var ty :| Numeric(ty) && Declares(fields, f, ty);
      UsableField(fields, f, NUMERIC, ty, e);
    case All(ms) => FittingMembers(fields, ms, |ms|, room - 1, e);
    case Any(ms) => FittingMembers(fields, ms, |ms|, room - 1, e);
    case Not(x) => FittingCondition(fields, x, room - 1, e);
  }

  lemma {:induction false} FittingMembers(fields: seq<Field>, ms: seq<Condition>, n: nat, room: nat, e: Kind)
    requires forall i, j | 0 <= i < j < |fields| :: fields[i].name != fields[j].name
    requires n <= |ms| && MembersFit(fields, ms, room)
    ensures Nestings(ms, n) <= room && forall i | 0 <= i < n :: !ConditionFault(fields, ms[i], e)
  {
    hide ConditionFits, ConditionFault, Nesting;
    if n > 0 {
      FittingMembers(fields, ms, n - 1, room, e);
      FittingCondition(fields, ms[n - 1], room, e);
    }
  }

  lemma FittingContribution(fields: seq<Field>, options: seq<Str>, c: Contribution, e: Kind)
    requires forall i, j | 0 <= i < j < |fields| :: fields[i].name != fields[j].name
    requires ContributionFits(fields, options, c)
    ensures !ContributionFault(fields, options, c, e)
  {
    hide FieldFault;
    match c
    case Add(_) =>
    case Linear(f, _) =>
      var ty :| Numeric(ty) && Declares(fields, f, ty);
      UsableField(fields, f, NUMERIC, ty, e);
    case Lookup(f, _, _) =>
      var ty :| Discrete(ty) && Declares(fields, f, ty);
      UsableField(fields, f, DISCRETE, ty, e);
  }

  lemma FittingRule(fields: seq<Field>, options: seq<Str>, r: Rule, e: Kind)
    requires forall i, j | 0 <= i < j < |fields| :: fields[i].name != fields[j].name
    requires RuleFits(fields, options, r)
    ensures !RuleFault(fields, options, r, e)
  {
    hide ConditionFits, ConditionFault, ContributionFits, ContributionFault, NodeCount, Nesting;
    FittingCondition(fields, r.cond, CONDITION_DEPTH, e);
    forall i | 0 <= i < |r.contributions| ensures !ContributionFault(fields, options, r.contributions[i], e) {
      FittingContribution(fields, options, r.contributions[i], e);
    }
  }

  lemma FittingRules(t: Task, e: Kind)
    requires RulesFit(t) && FieldsFit(t.fields)
    ensures !RulesFault(t, e)
  {
    hide RuleFits, RuleFault, TermsInRules, EntriesInRules, Len, P.FieldFits;
    forall i | 0 <= i < |t.rules| ensures !RuleFault(t.fields, t.options, t.rules[i], e) {
      FittingRule(t.fields, t.options, t.rules[i], e);
    }
  }

  lemma FittingFields(fs: seq<Field>, e: Kind)
    requires FieldsFit(fs)
    ensures !FieldsFault(fs, e)
  {
    hide Refers, ParseRef, Len;
    forall i | 0 <= i < |fs| ensures exists k, m :: Refers(fs[i].reference, k, m) {
      var km := ParseRef(fs[i].reference).value;
      ParseRefReads(fs[i].reference, km.0, km.1);
    }
  }

  lemma FittingOptions(t: Task, e: Kind)
    requires OptionsFit(t)
    ensures !OptionsFault(t, e)
  {
    hide Len;
  }

  /** No refusal says anything that is so of a task that fits. */
  lemma FittingTask(t: Task, e: Kind)
    requires TaskFits(t)
    ensures !TaskFault(t, e)
  {
    hide RulesFit, RulesFault, FieldsFit, FieldsFault, OptionsFault, Blank, Len;
    FittingOptions(t, e);
    FittingFields(t.fields, e);
    FittingRules(t, e);
  }

  /** Nor of a program that fits: whatever a refusal says is a reason not to accept. */
  lemma FittingProgram(p: Program, e: Kind)
    requires ProgramFits(p)
    ensures !ProgramFault(p, e)
  {
    hide TaskFits, TaskFault;
    forall i | 0 <= i < |p.tasks| ensures !TaskFault(p.tasks[i], e) {
      FittingTask(p.tasks[i], e);
    }
  }
}
