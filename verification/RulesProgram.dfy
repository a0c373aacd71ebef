/** Rules programs as a host writes them: names, types and constants
    (backends/rustev-backend-rules/src/program.rs). */
module RulesProgram {
  import opened Wrappers
  import opened JsonGrammar
  import opened JsonText
  import Ascii
  import Digits

  type Str = t: Text | IsText(t)

  /** ASCII text. */
  function Of(s: string): Str {
    seq(|s|, i requires 0 <= i < |s| => s[i] as int)
  }

  /** Length in bytes. */
  function Len(t: Str): nat { |Encode(t)| }

  // ------------------------------------------------------------------- programs

  datatype Operation = Classify | Proposition | Rubric | Rank | Generate | Extract

  datatype FieldType = TText | TBool | TInteger | TDecimal

  datatype NoMatch = UseBase | Fail

  datatype CompareOp = Lt | Le | Ge | Gt

  datatype OnMissing = Skip | Refuse

  datatype Field = Field(name: Str, reference: Str, ty: FieldType)

  /** A constant for an option, in units. */
  datatype Constant = Constant(option: Str, units: int)

  predicate Ordered(cs: seq<Constant>) {
    forall i, j | 0 <= i < j < |cs| :: Less(Encode(cs[i].option), Encode(cs[j].option))
  }

  /** Constants by option, in the byte order of the options' names. */
  type Constants = cs: seq<Constant> | Ordered(cs)

  datatype Condition =
    | Always
    | ContainsAny(field: Str, terms: seq<Str>)
    | Equals(field: Str, text: Str)
    | Compare(field: Str, op: CompareOp, units: int)
    | All(members: seq<Condition>)
    | Any(members: seq<Condition>)
    | Not(inner: Condition)

  datatype LookupEntry = LookupEntry(key: Str, add: Constants)

  datatype Contribution =
    | Add(constants: Constants)
    | Linear(field: Str, coefficients: Constants)
    | Lookup(field: Str, entries: seq<LookupEntry>, onMissing: OnMissing)

  datatype Rule = Rule(name: Str, cond: Condition, contributions: seq<Contribution>, stop: bool)

  datatype Task = Task(
    operation: Operation,
    task: Str,
    question: Str,
    options: seq<Str>,
    interpretation: Str,
    fields: seq<Field>,
    base: Constants,
    rules: seq<Rule>,
    onNoMatch: NoMatch)

  datatype Program = Program(schema: Str, backendId: Str, maxProjectionBytes: nat, tasks: seq<Task>)

  // --------------------------------------------------------------------- limits

  const BACKEND_ID_BYTES := 64
  const MAX_PROJECTION_BYTES := 65_536
  const TASKS := 32
  const TASK_BYTES := 256
  const QUESTION_BYTES := 4_096
  const OPTIONS_MIN := 2
  const OPTIONS := 64
  const OPTION_BYTES := 256
  const INTERPRETATION_BYTES := 1_024
  const FIELDS := 16
  const NAME_BYTES := 64
  const RULES := 128
  const CONDITION_NODES := 32
  const CONDITION_DEPTH := 4
  const CONDITION_MEMBERS := 16
  const TERMS := 32
  const TERM_BYTES := 64
  const TERMS_PER_TASK := 1_024
  const CONTRIBUTIONS := 8
  const LOOKUP_ENTRIES := 256
  const LOOKUP_KEY_BYTES := 256
  const LOOKUP_ENTRIES_PER_TASK := 1_024

  // ----------------------------------------------------------------------- text

  function Lower(t: Str): Str { Ascii.Lower(t) }

  /** White space, as Unicode has it. */
  predicate IsSpace(c: int) {
    || 0x09 <= c <= 0x0D || c == 0x20 || c == 0x85 || c == 0xA0 || c == 0x1680 || 0x2000 <= c <= 0x200A
    || c == 0x2028 || c == 0x2029 || c == 0x202F || c == 0x205F || c == 0x3000
  }

  predicate Blank(t: Str) { forall i | 0 <= i < |t| :: IsSpace(t[i]) }

  function PrintInt(n: int): Str {
    if n < 0 then [0x2D] + Digits.OfNat(-n) else Digits.OfNat(n)
  }

  predicate FitsI64(n: int) { -0x8000_0000_0000_0000 <= n <= 0x7FFF_FFFF_FFFF_FFFF }

  /** How an `i64` is read: a sign, which may be `+`, and digits. */
  function ParseI64(t: Text): Option<int> {
    var body := if t != [] && (t[0] == 0x2D || t[0] == 0x2B) then t[1..] else t;
    if body == [] || !Digits.AllDigits(body) then None
    else
      var n: int := Digits.Value(body);
      var m := if t[0] == 0x2D then -n else n;
      if FitsI64(m) then Some(m) else None
  }

  // --------------------------------------------------------------------- values

  /** What a field holds. */
  datatype FieldValue = VText(s: Str) | VBool(b: bool) | VInteger(i: int) | VDecimal(units: int)

  predicate HasType(v: FieldValue, ty: FieldType) {
    match v
    case VText(_) => ty == TText
    case VBool(_) => ty == TBool
    case VInteger(i) => ty == TInteger && FitsI64(i)
    case VDecimal(_) => ty == TDecimal
  }

  /** The text that `equals` and `lookup` compare; a decimal has none. */
  function CanonicalText(v: FieldValue): Option<Str> {
    match v
    case VText(s) => Some(s)
    case VBool(b) => Some(if b then Of("true") else Of("false"))
    case VInteger(i) => Some(PrintInt(i))
    case VDecimal(_) => None
  }

  /** `t` is the text of some value of the type. */
  ghost predicate IsValueText(ty: FieldType, t: Str) {
    exists v :: HasType(v, ty) && CanonicalText(v) == Some(t)
  }

  /** How the compiler decides it. */
  function CanonicalFor(ty: FieldType, t: Str): bool {
    match ty
    case TText => true
    case TBool => t == Of("true") || t == Of("false")
    case TInteger =>
      var n := ParseI64(t);
      n.Some? && PrintInt(n.value) == t
    case TDecimal => false
  }

  lemma ParsePrinted(n: int)
    requires FitsI64(n)
    ensures ParseI64(PrintInt(n)) == Some(n)
  {
    var m: nat := if n < 0 then -n else n;
    Digits.ValueOfNat(m);
    assert PrintInt(n) == if n < 0 then [0x2D] + Digits.OfNat(m) else Digits.OfNat(m);
    assert n < 0 ==> PrintInt(n)[1..] == Digits.OfNat(m);
  }

  lemma ParseFits(t: Text)
    requires ParseI64(t).Some?
    ensures FitsI64(ParseI64(t).value)
  {}

  /** The compiler accepts an `equals` text exactly when some value of the field's type has it. */
  lemma AcceptsValueTexts(ty: FieldType, t: Str)
    ensures CanonicalFor(ty, t) <==> IsValueText(ty, t)
  {
    match ty
    case TText => assert CanonicalText(VText(t)) == Some(t);
    case TBool =>
      assert CanonicalText(VBool(true)) == Some(Of("true"));
      assert CanonicalText(VBool(false)) == Some(Of("false"));
    case TInteger =>
      if CanonicalFor(ty, t) {
        ParseFits(t);
        assert CanonicalText(VInteger(ParseI64(t).value)) == Some(t);
      }
      if IsValueText(ty, t) {
        var v :| HasType(v, ty) && CanonicalText(v) == Some(t);
        ParsePrinted(v.i);
      }
    case TDecimal =>
  }

  // ----------------------------------------------------------------- references

  const INPUT := Of("input:")
  const BIND := Of("bind:")
  const SLASH := 0x2F
  const COLON_CHAR := 0x3A

  predicate Simple(s: Text) { s != [] && SLASH !in s && COLON_CHAR !in s }

  /** `input:<name>` or `bind:<name>`. */
  ghost predicate IsRefKey(key: Text) {
    exists name: Text :: Simple(name) && (key == INPUT + name || key == BIND + name)
  }

  /** A reference is a key, or a key and a member. */
  ghost predicate Refers(r: Text, key: Text, member: Option<Text>) {
    && IsRefKey(key)
    && match member
       case None => r == key
       case Some(m) => Simple(m) && r == key + [SLASH] + m
  }

  function IndexIn(s: Text, c: int): (i: nat)
    ensures i <= |s| && (i < |s| ==> s[i] == c)
    ensures forall k | 0 <= k < i :: s[k] != c
  {
    if s == [] || s[0] == c then 0 else 1 + IndexIn(s[1..], c)
  }

  function StripKey(key: Text): Option<Text> {
    if INPUT <= key then Some(key[|INPUT|..])
    else if BIND <= key then Some(key[|BIND|..])
    else None
  }

  /** The reader: splits at the first slash, strips the prefix, and looks for stray separators. */
  function ParseRef(r: Text): Option<(Text, Option<Text>)> {
    var i := IndexIn(r, SLASH);
    var key := r[..i];
    var member := if i < |r| then Some(r[i + 1..]) else None;
    match StripKey(key)
    case None => None
    case Some(name) =>
      if !Simple(name) || (member.Some? && !Simple(member.value)) then None else Some((key, member))
  }

  lemma FirstSlash(key: Text, m: Text)
    requires SLASH !in key
    ensures IndexIn(key + [SLASH] + m, SLASH) == |key| && IndexIn(key, SLASH) == |key|
  {
    var s := key + [SLASH] + m;
    assert s[|key|] == SLASH;
    assert forall k | 0 <= k < |key| :: s[k] == key[k] && key[k] != SLASH;
  }

  lemma KeyHasNoSlash(key: Text)
    requires IsRefKey(key)
    ensures SLASH !in key
    ensures StripKey(key).Some? && Simple(StripKey(key).value)
  {
    var name: Text :| Simple(name) && (key == INPUT + name || key == BIND + name);
    assert SLASH !in INPUT && SLASH !in BIND;
    assert INPUT[0] != BIND[0];
    if key == INPUT + name {
      assert key[|INPUT|..] == name;
    } else {
      assert key[0] == BIND[0];
      assert key[|BIND|..] == name;
    }
  }

  /** The reader reads references, whole, and nothing else. */
  lemma ParseRefReads(r: Text, key: Text, member: Option<Text>)
    ensures ParseRef(r) == Some((key, member)) <==> Refers(r, key, member)
  {
    if Refers(r, key, member) {
      KeyHasNoSlash(key);
      match member
      case None =>
        FirstSlash(key, []);
        assert r[..|key|] == key;
      case Some(m) =>
        FirstSlash(key, m);
        assert r[..|key|] == key && r[|key| + 1..] == m;
    }
    if ParseRef(r) == Some((key, member)) {
      var i := IndexIn(r, SLASH);
      var name := StripKey(key).value;
      assert key == INPUT + name || key == BIND + name;
      assert Simple(name);
      assert member.Some? ==> r == r[..i] + [SLASH] + r[i + 1..];
    }
  }

  // -------------------------------------------------------- programs that fit

  predicate Within(n: nat, lo: nat, hi: nat) { lo <= n <= hi }

  predicate Declares(fields: seq<Field>, name: Text, ty: FieldType) {
    exists i | 0 <= i < |fields| :: fields[i].name == name && fields[i].ty == ty
  }

  predicate Discrete(ty: FieldType) { ty == TText || ty == TBool || ty == TInteger }

  predicate Numeric(ty: FieldType) { ty == TInteger || ty == TDecimal }

  predicate DeclaresDiscrete(fields: seq<Field>, name: Text) {
    exists ty :: Discrete(ty) && Declares(fields, name, ty)
  }

  predicate DeclaresNumeric(fields: seq<Field>, name: Text) {
    exists ty :: Numeric(ty) && Declares(fields, name, ty)
  }

  /** The condition is well typed, within its bounds and nested at most `room` deep. */
  ghost predicate ConditionFits(fields: seq<Field>, c: Condition, room: nat) {
    match c
    case Always => true
    case ContainsAny(f, terms) =>
      && Declares(fields, f, TText)
      && Within(|terms|, 1, TERMS)
      && forall i | 0 <= i < |terms| :: Within(Len(terms[i]), 1, TERM_BYTES)
    case Equals(f, t) => exists ty :: Discrete(ty) && Declares(fields, f, ty) && IsValueText(ty, t)
    case Compare(f, _, _) => DeclaresNumeric(fields, f)
    case All(ms) => room > 0 && Within(|ms|, 1, CONDITION_MEMBERS) && MembersFit(fields, ms, room - 1)
    case Any(ms) => room > 0 && Within(|ms|, 1, CONDITION_MEMBERS) && MembersFit(fields, ms, room - 1)
    case Not(x) => room > 0 && ConditionFits(fields, x, room - 1)
  }

  ghost predicate MembersFit(fields: seq<Field>, ms: seq<Condition>, room: nat) {
    forall i | 0 <= i < |ms| :: ConditionFits(fields, ms[i], room)
  }

  function NodeCount(c: Condition): (n: nat)
    ensures n >= 1
  {
    match c
    case All(ms) => 1 + NodeCounts(ms, |ms|)
    case Any(ms) => 1 + NodeCounts(ms, |ms|)
    case Not(x) => 1 + NodeCount(x)
    case _ => 1
  }

  /** Nodes of the first `n`. */
  function NodeCounts(ms: seq<Condition>, n: nat): nat
    requires n <= |ms|
  {
    if n == 0 then 0 else NodeCounts(ms, n - 1) + NodeCount(ms[n - 1])
  }

  function TermCount(c: Condition): nat {
    match c
    case ContainsAny(_, terms) => |terms|
    case All(ms) => TermCounts(ms, |ms|)
    case Any(ms) => TermCounts(ms, |ms|)
    case Not(x) => TermCount(x)
    case _ => 0
  }

  function TermCounts(ms: seq<Condition>, n: nat): nat
    requires n <= |ms|
  {
    if n == 0 then 0 else TermCounts(ms, n - 1) + TermCount(ms[n - 1])
  }

  predicate ConstantsFit(options: seq<Str>, cs: Constants) {
    forall i | 0 <= i < |cs| :: cs[i].option in options
  }

  predicate EntryFits(options: seq<Str>, entry: LookupEntry) {
    Within(Len(entry.key), 1, LOOKUP_KEY_BYTES) && entry.add != [] && ConstantsFit(options, entry.add)
  }

  /** The first `n` entries fit and have distinct keys. */
  predicate EntriesFit(options: seq<Str>, entries: seq<LookupEntry>, n: nat)
    requires n <= |entries|
  {
    && (forall i, j | 0 <= i < j < n :: entries[i].key != entries[j].key)
    && forall i | 0 <= i < n :: EntryFits(options, entries[i])
  }

  ghost predicate ContributionFits(fields: seq<Field>, options: seq<Str>, c: Contribution) {
    match c
    case Add(cs) => cs != [] && ConstantsFit(options, cs)
    case Linear(f, cs) => DeclaresNumeric(fields, f) && cs != [] && ConstantsFit(options, cs)
    case Lookup(f, entries, _) =>
      && DeclaresDiscrete(fields, f)
      && Within(|entries|, 1, LOOKUP_ENTRIES)
      && EntriesFit(options, entries, |entries|)
  }

  ghost predicate ContributionsFit(fields: seq<Field>, options: seq<Str>, cs: seq<Contribution>) {
    forall i | 0 <= i < |cs| :: ContributionFits(fields, options, cs[i])
  }

  function EntryCount(c: Contribution): nat { if c.Lookup? then |c.entries| else 0 }

  /** Lookup entries of the first `n`. */
  function EntryCounts(cs: seq<Contribution>, n: nat): nat
    requires n <= |cs|
  {
    if n == 0 then 0 else EntryCounts(cs, n - 1) + EntryCount(cs[n - 1])
  }

  function TermsInRules(rs: seq<Rule>, n: nat): nat
    requires n <= |rs|
  {
    if n == 0 then 0 else TermsInRules(rs, n - 1) + TermCount(rs[n - 1].cond)
  }

  function EntriesInRules(rs: seq<Rule>, n: nat): nat
    requires n <= |rs|
  {
    if n == 0 then 0
    else EntriesInRules(rs, n - 1) + EntryCounts(rs[n - 1].contributions, |rs[n - 1].contributions|)
  }

  ghost predicate RuleFits(fields: seq<Field>, options: seq<Str>, r: Rule): (b: bool)
    ensures b ==> Within(Len(r.name), 1, NAME_BYTES)
  {
    && Within(Len(r.name), 1, NAME_BYTES)
    && ConditionFits(fields, r.cond, CONDITION_DEPTH)
    && NodeCount(r.cond) <= CONDITION_NODES
    && |r.contributions| <= CONTRIBUTIONS
    && ContributionsFit(fields, options, r.contributions)
  }

  predicate FieldFits(f: Field) {
    Within(Len(f.name), 1, NAME_BYTES) && ParseRef(f.reference).Some?
  }

  predicate OptionsFit(t: Task) {
    && (t.operation == Rank ==> t.options == [Of("score")])
    && (t.operation == Proposition ==> t.options == [Of("false"), Of("true")])
    && Within(|t.options|, if t.operation == Rank then 1 else OPTIONS_MIN, OPTIONS)
    && (forall i | 0 <= i < |t.options| :: Within(Len(t.options[i]), 1, OPTION_BYTES))
    && forall i, j | 0 <= i < j < |t.options| :: t.options[i] != t.options[j]
  }

  predicate FieldsFit(fields: seq<Field>) {
    && |fields| <= FIELDS
    && (forall i | 0 <= i < |fields| :: FieldFits(fields[i]))
    && forall i, j | 0 <= i < j < |fields| :: fields[i].name != fields[j].name
  }

  ghost predicate RulesFit(t: Task) {
    && |t.rules| <= RULES
    && (forall i | 0 <= i < |t.rules| :: RuleFits(t.fields, t.options, t.rules[i]))
    && (forall i, j | 0 <= i < j < |t.rules| :: t.rules[i].name != t.rules[j].name)
    && TermsInRules(t.rules, |t.rules|) <= TERMS_PER_TASK
    && EntriesInRules(t.rules, |t.rules|) <= LOOKUP_ENTRIES_PER_TASK
  }

  /** What a task has to be: named, typed and within every bound. */
  ghost predicate TaskFits(t: Task) {
    && Within(Len(t.task), 1, TASK_BYTES)
    && Within(Len(t.question), 1, QUESTION_BYTES)
    && OptionsFit(t)
    && Within(Len(t.interpretation), 1, INTERPRETATION_BYTES)
    && !Blank(t.interpretation)
    && FieldsFit(t.fields)
    && ConstantsFit(t.options, t.base)
    && RulesFit(t)
  }

  /** The least task of an operation. */
  function Least(op: Operation): Task {
    var options := if op == Rank then [Of("score")] else [Of("false"), Of("true")];
    Task(op, Of("t"), Of("q"), options, Of("i"), [], [], [], UseBase)
  }

  /** Every operation has tasks that fit, `generate` and `extract` too. */
  lemma EveryOperationFits(op: Operation)
    ensures exists t: Task :: t.operation == op && TaskFits(t)
  {
    hide Len, Of;
    var t := Least(op);
    LeastNames();
    assert OptionsFit(t) && RulesFit(t);
    assert t.operation == op && TaskFits(t);
  }

  lemma LeastNames()
    ensures Len(Of("t")) == 1 && Len(Of("q")) == 1 && Len(Of("i")) == 1 && !Blank(Of("i"))
    ensures Len(Of("score")) == 5 && Len(Of("false")) == 5 && Len(Of("true")) == 4 && Of("false") != Of("true")
  {
    AsciiLen("t");
    AsciiLen("q");
    AsciiLen("i");
    AsciiLen("score");
    AsciiLen("false");
    AsciiLen("true");
    hide Len;
    assert Of("i")[0] == 0x69 && Of("false")[0] == 0x66 && Of("true")[0] == 0x74;
  }

  /** ASCII text takes a byte for each character. */
  lemma {:induction false} AsciiLen(s: string)
    requires forall i | 0 <= i < |s| :: s[i] as int < 0x80
    ensures Len(Of(s)) == |s|
  {
    if s != [] {
      assert Of(s)[1..] == Of(s[1..]);
      AsciiLen(s[1..]);
    }
  }

  predicate IdChar(c: int) {
    0x61 <= c <= 0x7A || 0x30 <= c <= 0x39 || c == 0x2E || c == 0x5F || c == 0x2D
  }

  ghost predicate ProgramFits(p: Program) {
    && p.schema == Of("rustev.rules/1")
    && Within(Len(p.backendId), 1, BACKEND_ID_BYTES)
    && (forall i | 0 <= i < |p.backendId| :: IdChar(p.backendId[i]))
    && Within(p.maxProjectionBytes, 1, MAX_PROJECTION_BYTES)
    && Within(|p.tasks|, 1, TASKS)
    && (forall i | 0 <= i < |p.tasks| :: TaskFits(p.tasks[i]))
    && forall i, j | 0 <= i < j < |p.tasks| :: p.tasks[i].task != p.tasks[j].task
  }
}
