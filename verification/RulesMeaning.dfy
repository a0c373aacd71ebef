/** What a rules program means: fields and options by name, conditions on the fields' values,
    constants added to the options' logits (backends/rustev-backend-rules/src/eval.rs). */
module RulesMeaning {
  import opened Wrappers
  import opened JsonGrammar
  import opened JsonText
  import opened Canonical
  import opened RulesProgram
  import Ascii
  import Decimal
  import DecimalText

  datatype Reason =
    | TooLong | BadProjection | NoTask | UnknownTask(name: Text)
    | OperationDiffers | QuestionDiffers | OptionsDiffer | NotOneCandidate
    | NotARecord(field: Str) | Missing(field: Str) | Incompatible(field: Str)
    | Overflow(rule: Str, option: Str) | NoEntry(rule: Str, key: Str) | NoRuleApplied

  /** Where cancellation is observed. */
  datatype Point = BeforeParse | AfterFields | BeforeRule(index: nat)

  type Logits = map<Str, int>

  datatype Evaluated = Answer(logits: Logits) | Scores(scores: map<Text, int>) | Failed(reason: Reason) | Stopped(at: Point)

  // -------------------------------------------------------------- the projection

  function Get(v: Json, key: Text): Option<Json> {
    if v.JObject? && HasKey(v.members, key) then Some(v.members[IndexOf(v.members, key)].value) else None
  }

  function AsText(v: Option<Json>): Option<Text> {
    if v.Some? && v.value.JString? then Some(v.value.s) else None
  }

  function OperationName(op: Operation): Str {
    match op
    case Classify => Of("classify")
    case Proposition => Of("proposition")
    case Rubric => Of("rubric")
    case Rank => Of("rank")
    case Generate => Of("generate")
    case Extract => Of("extract")
  }

  function Texts(ts: seq<Str>): Json { JArray(seq(|ts|, i requires 0 <= i < |ts| => JString(ts[i]))) }

  /** The one presented candidate of a projection. */
  function Presented(doc: Json): Option<Json> {
    var p := Get(doc, Of("presented"));
    if p.Some? && p.value.JArray? && |p.value.items| == 1 then Some(p.value.items[0]) else None
  }

  function Candidate(doc: Json): Option<Text> {
    var p := Presented(doc);
    if p.None? then None else AsText(Get(p.value, Of("id")))
  }

  /** One candidate, presented alone, whose item is a record or absent of content. */
  predicate IsPointwise(doc: Json) {
    && AsText(Get(doc, Of("mode"))) == Some(Of("pointwise"))
    && Candidate(doc).Some? && Candidate(doc).value != []
    && Get(doc, Of("candidates")) == Some(JArray([JString(Candidate(doc).value)]))
    && Get(doc, Of("options")) == Some(JArray([]))
    && var item := Get(Presented(doc).value, Of("item"));
      item.Some? && (item.value.JNull? || item.value.JObject?)
  }

  /** Why a projection that names a task is not one of that task, if it is not. */
  function Differs(op: Operation, question: Str, options: seq<Str>, doc: Json): Option<Reason> {
    if Get(doc, Of("operation")) != Some(JString(OperationName(op))) then Some(OperationDiffers)
    else if AsText(Get(doc, Of("question"))) != Some(question) then Some(QuestionDiffers)
    else if op == Rank then if IsPointwise(doc) then None else Some(NotOneCandidate)
    else if Get(doc, Of("options")) != Some(Texts(options)) then Some(OptionsDiffer)
    else None
  }

  datatype Choice = Chosen(index: nat) | Refused(reason: Reason)

  /** `i` is the first task of that name. */
  predicate FirstNamed(tasks: seq<Task>, name: Text, i: nat) {
    i < |tasks| && tasks[i].task == name && forall k | 0 <= k < i :: tasks[k].task != name
  }

  predicate Chooses(tasks: seq<Task>, doc: Json, choice: Choice) {
    match AsText(Get(doc, Of("task")))
    case None => choice == Refused(NoTask)
    case Some(name) =>
      match choice
      case Chosen(i) =>
        && FirstNamed(tasks, name, i)
        && Differs(tasks[i].operation, tasks[i].question, tasks[i].options, doc).None?
      case Refused(reason) =>
        if forall k | 0 <= k < |tasks| :: tasks[k].task != name then reason == UnknownTask(name)
        else exists i | 0 <= i < |tasks| ::
               && FirstNamed(tasks, name, i)
               && Differs(tasks[i].operation, tasks[i].question, tasks[i].options, doc) == Some(reason)
  }

  // -------------------------------------------------------------------- fields

  datatype Reading = Value(value: FieldValue) | Bad(reason: Reason)

  /** The decimal that a text spells, if it spells one. */
  ghost function DecimalOf(s: Str): Option<int> {
    if exists u :: DecimalText.Reads(Encode(s), DecimalText.Ok(u)) then
      var u :| DecimalText.Reads(Encode(s), DecimalText.Ok(u));
      Some(u)
    else None
  }

  /** A JSON value as a value of a type. */
  ghost function AsValue(v: Json, ty: FieldType): Option<FieldValue> {
    match ty
    case TText => if v.JString? && IsText(v.s) then Some(VText(v.s)) else None
    case TBool => if v.JBool? then Some(VBool(v.b)) else None
    case TInteger => if v.JInt? && FitsI64(v.n) then Some(VInteger(v.n)) else None
    case TDecimal =>
      if v.JString? && IsText(v.s) && DecimalOf(v.s).Some? then Some(VDecimal(DecimalOf(v.s).value)) else None
  }

  /** Where a field's key leads: a rank task binds the presented item. */
  function Source(op: Operation, key: Text, doc: Json): Option<Json> {
    if op == Rank && BIND <= key then
      var p := Get(doc, Of("presented"));
      if p.Some? && p.value.JArray? && p.value.items != [] then Get(p.value.items[0], Of("item")) else None
    else
      var values := Get(doc, Of("values"));
      if values.Some? then Get(values.value, key) else None
  }

  ghost function ReadAt(op: Operation, name: Str, key: Text, member: Option<Text>, ty: FieldType, doc: Json): Reading {
    var v := Source(op, key, doc);
    if member.Some? && v.Some? && !v.value.JObject? && !v.value.JNull? then Bad(NotARecord(name))
    else
      var w := if member.None? then v else if v.Some? then Get(v.value, member.value) else None;
      if w.None? || w.value.JNull? then Bad(Missing(name))
      else
        match AsValue(w.value, ty)
        case None => Bad(Incompatible(name))
        case Some(x) => Value(x)
  }

  /** What a declared field reads from the projection. */
  ghost function ReadField(op: Operation, f: Field, doc: Json): Reading {
    match ParseRef(f.reference)
    case None => Bad(Missing(f.name))
    case Some((key, member)) => ReadAt(op, f.name, key, member, f.ty, doc)
  }

  type Env = map<Str, FieldValue>

  datatype Binding = Bound(env: Env) | Unbound(reason: Reason)

  /** The values of the first `n` fields by their names, or what is wrong with the first that
      has none. */
  ghost function Bind(op: Operation, fields: seq<Field>, n: nat, doc: Json): Binding
    requires n <= |fields|
  {
    if n == 0 then Bound(map[])
    else
      match Bind(op, fields, n - 1, doc)
      case Unbound(reason) => Unbound(reason)
      case Bound(env) =>
        match ReadField(op, fields[n - 1], doc)
        case Bad(reason) => Unbound(reason)
        case Value(v) => Bound(env[fields[n - 1].name := v])
  }

  // ---------------------------------------------------------------- conditions

  /** `term` occurs in `s`, whatever the case of ASCII letters. */
  predicate OccursAt(s: Text, term: Text, i: nat) {
    i + |term| <= |s| && forall k | 0 <= k < |term| :: Ascii.Fold(s[i + k]) == Ascii.Fold(term[k])
  }

  predicate Occurs(s: Text, term: Text) {
    exists i | 0 <= i <= |s| :: OccursAt(s, term, i)
  }

  function Number(v: FieldValue): Option<int> {
    match v
    case VInteger(i) => Some(i * Decimal.ONE)
    case VDecimal(u) => Some(u)
    case _ => None
  }

  predicate Compares(op: CompareOp, a: int, b: int) {
    match op
    case Lt => a < b
    case Le => a <= b
    case Ge => a >= b
    case Gt => a > b
  }

  predicate Holds(c: Condition, env: Env) {
    match c
    case Always => true
    case ContainsAny(f, terms) =>
      f in env && env[f].VText? && exists i | 0 <= i < |terms| :: Occurs(env[f].s, terms[i])
    case Equals(f, t) => f in env && CanonicalText(env[f]) == Some(t)
    case Compare(f, op, u) => f in env && Number(env[f]).Some? && Compares(op, Number(env[f]).value, u)
    case All(ms) => forall i | 0 <= i < |ms| :: Holds(ms[i], env)
    case Any(ms) => exists i | 0 <= i < |ms| :: Holds(ms[i], env)
    case Not(x) => !Holds(x, env)
  }

  // -------------------------------------------------------------- contributions

  datatype Effect = Sum(logits: Logits) | Over(option: Str) | Absent(key: Str)

  /** One constant added to one option. */
  function AddOne(m: Logits, o: Str, units: int): Effect {
    if o !in m then Over(o)
    else
      match Decimal.CheckedAdd(m[o], units)
      case Ok(u) => Sum(m[o := u])
      case Err(_) => Over(o)
  }

  /** The first `n` constants, in order. */
  function AddConstants(cs: seq<Constant>, n: nat, m: Logits): Effect
    requires n <= |cs|
  {
    if n == 0 then Sum(m) else
      match AddConstants(cs, n - 1, m)
      case Sum(s) => AddOne(s, cs[n - 1].option, cs[n - 1].units)
      case e => e
  }

  /** One constant times a number, rounded half to even. */
  function AddProduct(m: Logits, c: Constant, x: int): Effect {
    match Decimal.CheckedMul(c.units, x, Decimal.HalfEven)
    case Ok(u) => AddOne(m, c.option, u)
    case Err(_) => Over(c.option)
  }

  function AddProducts(cs: seq<Constant>, n: nat, x: int, m: Logits): Effect
    requires n <= |cs|
  {
    if n == 0 then Sum(m) else
      match AddProducts(cs, n - 1, x, m)
      case Sum(s) => AddProduct(s, cs[n - 1], x)
      case e => e
  }

  predicate EntryAt(entries: seq<LookupEntry>, key: Text, i: nat) {
    i < |entries| && entries[i].key == key
  }

  predicate HasEntry(entries: seq<LookupEntry>, key: Text) {
    exists i | 0 <= i < |entries| :: EntryAt(entries, key, i)
  }

  ghost function EntryOf(entries: seq<LookupEntry>, key: Text): (i: nat)
    requires HasEntry(entries, key)
    ensures EntryAt(entries, key, i)
  {
    var i :| 0 <= i < |entries| && EntryAt(entries, key, i);
    i
  }

  ghost function ApplyOne(c: Contribution, env: Env, m: Logits): Effect {
    match c
    case Add(cs) => AddConstants(cs, |cs|, m)
    case Linear(f, cs) => if f in env && Number(env[f]).Some? then AddProducts(cs, |cs|, Number(env[f]).value, m) else Absent(f)
    case Lookup(f, entries, onMissing) =>
      if f !in env || CanonicalText(env[f]).None? then Absent(f)
      else
        var key := CanonicalText(env[f]).value;
        if HasEntry(entries, key) then
          var constants := entries[EntryOf(entries, key)].add;
          AddConstants(constants, |constants|, m)
        else if onMissing == Skip then Sum(m)
        else Absent(key)
  }

  /** The first `n` contributions, in order. */
  ghost function Apply(cs: seq<Contribution>, n: nat, env: Env, m: Logits): Effect
    requires n <= |cs|
  {
    if n == 0 then Sum(m) else
      match Apply(cs, n - 1, env, m)
      case Sum(s) => ApplyOne(cs[n - 1], env, s)
      case e => e
  }

  // ----------------------------------------------------------------- the program

  /** The constant for an option in the base; zero when there is none. */
  predicate IsBase(base: seq<Constant>, o: Str, units: int) {
    if exists i | 0 <= i < |base| :: base[i].option == o then
      exists i | 0 <= i < |base| :: base[i] == Constant(o, units)
    else units == 0
  }

  predicate IsStart(t: Task, m: Logits) {
    && m.Keys == (set o | o in t.options)
    && forall o | o in t.options :: IsBase(t.base, o, m[o])
  }

  function Settle(t: Task, doc: Json, m: Logits, applied: bool): Evaluated {
    if !applied && t.onNoMatch == Fail then Failed(NoRuleApplied)
    else if t.operation == Rank && Candidate(doc).Some? then
      Scores(map[Candidate(doc).value := if Of("score") in m then m[Of("score")] else 0])
    else Answer(m)
  }

  /** The rules from the `i`th on, in order, until one stops. */
  ghost function RunRules(t: Task, i: nat, doc: Json, env: Env, m: Logits, applied: bool, cancelled: Point -> bool): Evaluated
    decreases |t.rules| - i
  {
    if i >= |t.rules| then Settle(t, doc, m, applied)
    else if cancelled(BeforeRule(i)) then Stopped(BeforeRule(i))
    else
      var r := t.rules[i];
      if !Holds(r.cond, env) then RunRules(t, i + 1, doc, env, m, applied, cancelled)
      else
        match Apply(r.contributions, |r.contributions|, env, m)
        case Over(o) => Failed(Overflow(r.name, o))
        case Absent(k) => Failed(NoEntry(r.name, k))
        case Sum(n) =>
          if r.stop then Settle(t, doc, n, true) else RunRules(t, i + 1, doc, env, n, true, cancelled)
  }

  /** A task's answer to its projection. */
  ghost predicate TaskMeans(t: Task, doc: Json, cancelled: Point -> bool, e: Evaluated) {
    match Bind(t.operation, t.fields, |t.fields|, doc)
    case Unbound(reason) => e == Failed(reason)
    case Bound(env) =>
      if cancelled(AfterFields) then e == Stopped(AfterFields)
      else exists m :: IsStart(t, m) && e == RunRules(t, 0, doc, env, m, false, cancelled)
  }

  /** What a chosen task answers, or why none is. */
  ghost predicate ChoiceMeans(p: Program, doc: Json, cancelled: Point -> bool, choice: Choice, e: Evaluated) {
    && Chooses(p.tasks, doc, choice)
    && match choice
       case Refused(reason) => e == Failed(reason)
       case Chosen(i) => TaskMeans(p.tasks[i], doc, cancelled, e)
  }

  /** A program's answer to a projection of `size` bytes, which parses to `doc` if at all. */
  ghost predicate Means(p: Program, size: nat, doc: Option<Json>, cancelled: Point -> bool, e: Evaluated) {
    if cancelled(BeforeParse) then e == Stopped(BeforeParse)
    else if size > p.maxProjectionBytes then e == Failed(TooLong)
    else
      match doc
      case None => e == Failed(BadProjection)
      case Some(v) =>
        exists choice :: ChoiceMeans(p, v, cancelled, choice, e)
  }
}
