/** The checked form of a rules program: names resolved to indices, and what it has to do with
    the program (backends/rustev-backend-rules/src/program.rs:290-349). */
module RulesChecked {
  import opened Wrappers
  import opened JsonGrammar
  import opened RulesProgram

  datatype CField = CField(name: Str, key: Text, member: Option<Text>, ty: FieldType)

  datatype CCond =
    | CAlways
    | CContainsAny(field: nat, terms: seq<Str>)
    | CEquals(field: nat, text: Str)
    | CCompare(field: nat, op: CompareOp, units: int)
    | CAll(members: seq<CCond>)
    | CAny(members: seq<CCond>)
    | CNot(inner: CCond)

  datatype CConstant = CConstant(option: nat, units: int)

  type Adds = seq<CConstant>

  datatype CContrib =
    | CAdd(constants: Adds)
    | CLinear(field: nat, coefficients: Adds)
    | CLookup(field: nat, table: map<Text, Adds>, onMissing: OnMissing)

  datatype CRule = CRule(name: Str, cond: CCond, contributions: seq<CContrib>, stop: bool)

  datatype CTask = CTask(
    operation: Operation,
    name: Str,
    question: Str,
    options: seq<Str>,
    fields: seq<CField>,
    base: seq<int>,
    rules: seq<CRule>,
    onNoMatch: NoMatch)

  // ------------------------------------------------------- resolved from a program

  predicate IsField(fields: seq<Field>, name: Str, k: nat) {
    k < |fields| && fields[k].name == name
  }

  predicate ConditionOf(fields: seq<Field>, c: Condition, d: CCond)
    decreases c
  {
    match (c, d)
    case (Always, CAlways) => true
    case (ContainsAny(f, ts), CContainsAny(k, us)) =>
      && IsField(fields, f, k) && fields[k].ty == TText
      && |us| == |ts| && forall i | 0 <= i < |ts| :: us[i] == Lower(ts[i])
    case (Equals(f, t), CEquals(k, u)) => IsField(fields, f, k) && Discrete(fields[k].ty) && u == t
    case (Compare(f, op, x), CCompare(k, o, y)) => IsField(fields, f, k) && Numeric(fields[k].ty) && o == op && y == x
    case (All(ms), CAll(ns)) => |ns| == |ms| && forall i | 0 <= i < |ms| :: ConditionOf(fields, ms[i], ns[i])
    case (Any(ms), CAny(ns)) => |ns| == |ms| && forall i | 0 <= i < |ms| :: ConditionOf(fields, ms[i], ns[i])
    case (Not(x), CNot(y)) => ConditionOf(fields, x, y)
    case _ => false
  }

  predicate AddsOf(options: seq<Str>, cs: seq<Constant>, adds: Adds) {
    && |adds| == |cs|
    && forall i | 0 <= i < |cs| ::
         adds[i].option < |options| && options[adds[i].option] == cs[i].option && adds[i].units == cs[i].units
  }

  /** `table` holds the first `n` entries by their keys. */
  predicate TableOf(options: seq<Str>, entries: seq<LookupEntry>, n: nat, table: map<Text, Adds>)
    requires n <= |entries|
  {
    && (forall i | 0 <= i < n :: entries[i].key in table && AddsOf(options, entries[i].add, table[entries[i].key]))
    && forall key | key in table :: exists i | 0 <= i < n :: entries[i].key == key
  }

  predicate ContributionOf(fields: seq<Field>, options: seq<Str>, c: Contribution, d: CContrib) {
    match (c, d)
    case (Add(cs), CAdd(adds)) => AddsOf(options, cs, adds)
    case (Linear(f, cs), CLinear(k, adds)) => IsField(fields, f, k) && Numeric(fields[k].ty) && AddsOf(options, cs, adds)
    case (Lookup(f, entries, m), CLookup(k, table, n)) =>
      IsField(fields, f, k) && Discrete(fields[k].ty) && TableOf(options, entries, |entries|, table) && n == m
    case _ => false
  }

  predicate ContributionsOf(fields: seq<Field>, options: seq<Str>, cs: seq<Contribution>, ds: seq<CContrib>) {
    |ds| == |cs| && forall i | 0 <= i < |cs| :: ContributionOf(fields, options, cs[i], ds[i])
  }

  predicate RuleOf(fields: seq<Field>, options: seq<Str>, r: Rule, c: CRule) {
    && c.name == r.name && c.stop == r.stop
    && ConditionOf(fields, r.cond, c.cond)
    && ContributionsOf(fields, options, r.contributions, c.contributions)
  }

  predicate RulesOf(fields: seq<Field>, options: seq<Str>, rs: seq<Rule>, cs: seq<CRule>) {
    |cs| == |rs| && forall i | 0 <= i < |rs| :: RuleOf(fields, options, rs[i], cs[i])
  }

  predicate FieldOf(f: Field, c: CField) {
    c.name == f.name && c.ty == f.ty && ParseRef(f.reference) == Some((c.key, c.member))
  }

  predicate FieldsOf(fs: seq<Field>, cs: seq<CField>) {
    |cs| == |fs| && forall i | 0 <= i < |fs| :: FieldOf(fs[i], cs[i])
  }

  /** The base constant of each option, zero where the task names none. */
  predicate BaseOf(options: seq<Str>, cs: seq<Constant>, base: seq<int>) {
    && |base| == |options|
    && (forall i, k | 0 <= i < |cs| && 0 <= k < |options| && options[k] == cs[i].option :: base[k] == cs[i].units)
    && forall k | 0 <= k < |options| && (forall i | 0 <= i < |cs| :: cs[i].option != options[k]) :: base[k] == 0
  }

  /** `c` is `t` with its names resolved. */
  predicate TaskOf(t: Task, c: CTask) {
    && c.operation == t.operation && c.name == t.task && c.question == t.question && c.options == t.options
    && c.onNoMatch == t.onNoMatch
    && FieldsOf(t.fields, c.fields)
    && BaseOf(t.options, t.base, c.base)
    && RulesOf(t.fields, t.options, t.rules, c.rules)
  }

  predicate TasksOf(ts: seq<Task>, cs: seq<CTask>) {
    |cs| == |ts| && forall i | 0 <= i < |ts| :: TaskOf(ts[i], cs[i])
  }
}
