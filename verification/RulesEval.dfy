/** The evaluator of checked programs means what the program means
    (backends/rustev-backend-rules/src/eval.rs). */
module RulesEval {
  import opened Wrappers
  import opened JsonGrammar
  import opened JsonText
  import opened Canonical
  import opened P = RulesProgram
  import opened RulesChecked
  import opened RulesMeaning
  import Ascii
  import Decimal
  import DecimalText

  /** A value as the evaluator holds it: a text with its lower case. */
  datatype CValue = CText(s: Str, lower: Str) | CBool(b: bool) | CInteger(i: int) | CDecimal(units: int)

  function Plain(v: CValue): FieldValue {
    match v
    case CText(s, _) => VText(s)
    case CBool(b) => VBool(b)
    case CInteger(i) => VInteger(i)
    case CDecimal(u) => VDecimal(u)
  }

  predicate IsLowered(v: CValue) { v.CText? ==> v.lower == Lower(v.s) }

  function CanonicalOf(v: CValue): Option<Str> {
    match v
    case CText(s, _) => Some(s)
    case CBool(b) => Some(if b then Of("true") else Of("false"))
    case CInteger(i) => Some(PrintInt(i))
    case CDecimal(_) => None
  }

  function NumberOf(v: CValue): Option<int> {
    match v
    case CInteger(i) => Some(i * Decimal.ONE)
    case CDecimal(u) => Some(u)
    case _ => None
  }

  // ---------------------------------------------------------------- conditions

  predicate IsAt(s: Text, t: Text, i: nat) { i + |t| <= |s| && s[i..i + |t|] == t }

  predicate Contains(s: Text, t: Text) {
    exists i | 0 <= i <= |s| :: IsAt(s, t, i)
  }

  /** Every index is of a field. */
  predicate InRange(c: CCond, n: nat) {
    match c
    case CAlways => true
    case CContainsAny(k, _) => k < n
    case CEquals(k, _) => k < n
    case CCompare(k, _, _) => k < n
    case CAll(ms) => forall i | 0 <= i < |ms| :: InRange(ms[i], n)
    case CAny(ms) => forall i | 0 <= i < |ms| :: InRange(ms[i], n)
    case CNot(x) => InRange(x, n)
  }

  predicate HoldsChecked(c: CCond, values: seq<CValue>)
    requires InRange(c, |values|)
  {
    match c
    case CAlways => true
    case CContainsAny(k, terms) => values[k].CText? && exists i | 0 <= i < |terms| :: Contains(values[k].lower, terms[i])
    case CEquals(k, t) => CanonicalOf(values[k]) == Some(t)
    case CCompare(k, op, u) => NumberOf(values[k]).Some? && Compares(op, NumberOf(values[k]).value, u)
    case CAll(ms) => forall i | 0 <= i < |ms| :: HoldsChecked(ms[i], values)
    case CAny(ms) => exists i | 0 <= i < |ms| :: HoldsChecked(ms[i], values)
    case CNot(x) => !HoldsChecked(x, values)
  }

  /** `values` are what `env` binds the fields to. */
  predicate EnvOf(fields: seq<Field>, values: seq<CValue>, env: Env) {
    && |values| == |fields|
    && forall k | 0 <= k < |fields| ::
         && fields[k].name in env && env[fields[k].name] == Plain(values[k])
         && IsLowered(values[k]) && HasType(Plain(values[k]), fields[k].ty)
  }

  /** A lower-cased term is in a lower-cased text where the term is in the text. */
  lemma FoldedOccurs(s: Str, t: Str)
    ensures Contains(Lower(s), Lower(t)) <==> Occurs(s, t)
  {
    var u, w := Lower(s), Lower(t);
    if Contains(u, w) {
      var i :| 0 <= i <= |u| && IsAt(u, w, i);
      forall k | 0 <= k < |t| ensures Ascii.Fold(s[i + k]) == Ascii.Fold(t[k]) {
        assert u[i..i + |w|][k] == w[k];
      }
      assert OccursAt(s, t, i);
    }
    if Occurs(s, t) {
      var i :| 0 <= i <= |s| && OccursAt(s, t, i);
      assert u[i..i + |w|] == w;
      assert IsAt(u, w, i);
    }
  }

  /** Resolved conditions keep to the fields: no index is out of range. */
  lemma {:induction false} ResolvedInRange(fields: seq<Field>, c: Condition, d: CCond)
    requires ConditionOf(fields, c, d)
    ensures InRange(d, |fields|)
    decreases c
  {
    match (c, d)
    case (All(ms), CAll(ns)) =>
      forall i | 0 <= i < |ns| ensures InRange(ns[i], |fields|) {
        ResolvedInRange(fields, ms[i], ns[i]);
      }
    case (Any(ms), CAny(ns)) =>
      forall i | 0 <= i < |ns| ensures InRange(ns[i], |fields|) {
        ResolvedInRange(fields, ms[i], ns[i]);
      }
    case (Not(x), CNot(y)) => ResolvedInRange(fields, x, y);
    case _ =>
  }

  /** A resolved condition holds where the condition holds. */
  lemma {:induction false} HoldsSame(fields: seq<Field>, c: Condition, d: CCond, values: seq<CValue>, env: Env)
    requires ConditionOf(fields, c, d) && EnvOf(fields, values, env)
    ensures InRange(d, |values|) && (HoldsChecked(d, values) <==> Holds(c, env))
    decreases c
  {
    ResolvedInRange(fields, c, d);
    match (c, d)
    case (ContainsAny(f, ts), CContainsAny(k, us)) =>
      assert env[f] == Plain(values[k]);
      if values[k].CText? {
        forall i | 0 <= i < |ts| ensures Contains(values[k].lower, us[i]) <==> Occurs(values[k].s, ts[i]) {
          FoldedOccurs(values[k].s, ts[i]);
        }
      }
    case (Equals(f, t), CEquals(k, _)) => assert env[f] == Plain(values[k]);
    case (Compare(f, _, _), CCompare(k, _, _)) => assert env[f] == Plain(values[k]);
    case (All(ms), CAll(ns)) =>
      forall i | 0 <= i < |ms| ensures HoldsChecked(ns[i], values) <==> Holds(ms[i], env) {
        HoldsSame(fields, ms[i], ns[i], values, env);
      }
    case (Any(ms), CAny(ns)) =>
      forall i | 0 <= i < |ms| ensures HoldsChecked(ns[i], values) <==> Holds(ms[i], env) {
        HoldsSame(fields, ms[i], ns[i], values, env);
      }
    case (Not(x), CNot(y)) => HoldsSame(fields, x, y, values, env);
    case _ =>
  }

  // ------------------------------------------------------------------- logits

  /** `s` holds the options' logits in the options' order. */
  predicate Named(options: seq<Str>, s: seq<int>, m: Logits) {
    && |s| == |options|
    && (forall k | 0 <= k < |options| :: options[k] in m && m[options[k]] == s[k])
    && forall o | o in m :: o in options
  }

  datatype Fault = OverIn(option: Str) | NoKey(key: Str)

  /** What happened to the logits is the effect. */
  predicate Did(effect: Effect, fault: Option<Fault>, options: seq<Str>, s: seq<int>) {
    match effect
    case Sum(m) => fault.None? && Named(options, s, m)
    case Over(o) => fault == Some(OverIn(o))
    case Absent(k) => fault == Some(NoKey(k))
  }

  lemma AddedOne(options: seq<Str>, s: seq<int>, m: Logits, k: nat, units: int)
    requires Distinct(options) && Named(options, s, m) && k < |options|
    ensures match Decimal.CheckedAdd(s[k], units)
            case Ok(u) => AddOne(m, options[k], units).Sum? && Named(options, s[k := u], AddOne(m, options[k], units).logits)
            case Err(_) => AddOne(m, options[k], units) == Over(options[k])
  {}

  method AddAll(adds: Adds, logits: array<int>, options: seq<Str>, ghost cs: seq<Constant>, ghost m: Logits)
    returns (fault: Option<Fault>)
    requires Distinct(options) && AddsOf(options, cs, adds) && Named(options, logits[..], m)
    modifies logits
    ensures Did(AddConstants(cs, |cs|, m), fault, options, logits[..])
  {
    hide Named;
    assert |logits[..]| == |options| by { NamedLength(options, logits[..], m); }
    for i := 0 to |adds|
      invariant AddConstants(cs, i, m).Sum? && Named(options, logits[..], AddConstants(cs, i, m).logits)
    {
      var a := adds[i];
      ghost var s := logits[..];
      AddedOne(options, s, AddConstants(cs, i, m).logits, a.option, a.units);
      match Decimal.CheckedAdd(logits[a.option], a.units)
      case Ok(u) =>
        logits[a.option] := u;
        assert logits[..] == s[a.option := u];
      case Err(_) =>
        Stuck(cs, i + 1, |cs|, m);
        return Some(OverIn(options[a.option]));
    }
    return None;
  }

  lemma NamedLength(options: seq<Str>, s: seq<int>, m: Logits)
    requires Named(options, s, m)
    ensures |s| == |options|
  {}

  /** An overflow is final. */
  lemma {:induction false} Stuck(cs: seq<Constant>, k: nat, n: nat, m: Logits)
    requires k <= n <= |cs| && !AddConstants(cs, k, m).Sum?
    ensures AddConstants(cs, n, m) == AddConstants(cs, k, m)
  {
    if k < n {
      Stuck(cs, k, n - 1, m);
    }
  }

  lemma {:induction false} StuckProducts(cs: seq<Constant>, k: nat, n: nat, x: int, m: Logits)
    requires k <= n <= |cs| && !AddProducts(cs, k, x, m).Sum?
    ensures AddProducts(cs, n, x, m) == AddProducts(cs, k, x, m)
  {
    if k < n {
      StuckProducts(cs, k, n - 1, x, m);
    }
  }

  method AddProductsTo(adds: Adds, x: int, logits: array<int>, options: seq<Str>, ghost cs: seq<Constant>, ghost m: Logits)
    returns (fault: Option<Fault>)
    requires Distinct(options) && AddsOf(options, cs, adds) && Named(options, logits[..], m)
    modifies logits
    ensures Did(AddProducts(cs, |cs|, x, m), fault, options, logits[..])
  {
    hide Named, Decimal.CheckedMul, AddOne;
    for i := 0 to |adds|
      invariant AddProducts(cs, i, x, m).Sum? && Named(options, logits[..], AddProducts(cs, i, x, m).logits)
    {
      var a := adds[i];
      ghost var n := AddProducts(cs, i, x, m).logits;
      match Decimal.CheckedMul(a.units, x, Decimal.HalfEven)
      case Ok(u) =>
        ghost var c := Constant(options[a.option], u);
        assert AddConstants([c], 0, n) == Sum(n);
        assert AddConstants([c], 1, n) == AddOne(n, c.option, u);
        fault := AddAll([CConstant(a.option, u)], logits, options, [c], n);
        if fault.Some? {
          StuckProducts(cs, i + 1, |cs|, x, m);
          return;
        }
      case Err(_) =>
        StuckProducts(cs, i + 1, |cs|, x, m);
        return Some(OverIn(options[a.option]));
    }
    return None;
  }

  // -------------------------------------------------------------- contributions

  /** The indices of a contribution are of fields, and of fields of a type it can use. */
  predicate Usable(c: CContrib, values: seq<CValue>) {
    match c
    case CAdd(_) => true
    case CLinear(k, _) => k < |values| && NumberOf(values[k]).Some?
    case CLookup(k, _, _) => k < |values| && CanonicalOf(values[k]).Some?
  }

  /** Typed programs do not fail on types: a linear field is numeric, and a lookup field has a
      canonical text. */
  lemma ResolvedUsable(fields: seq<Field>, options: seq<Str>, c: Contribution, d: CContrib, values: seq<CValue>, env: Env)
    requires ContributionOf(fields, options, c, d) && EnvOf(fields, values, env)
    ensures Usable(d, values)
  {
    match d
    case CAdd(_) =>
    case CLinear(k, _) => assert HasType(Plain(values[k]), fields[k].ty);
    case CLookup(k, _, _) => assert HasType(Plain(values[k]), fields[k].ty);
  }

  method ApplyTo(d: CContrib, values: seq<CValue>, logits: array<int>, options: seq<Str>,
                 ghost fields: seq<Field>, ghost c: Contribution, ghost env: Env, ghost m: Logits)
    returns (fault: Option<Fault>)
    requires ContributionOf(fields, options, c, d) && EnvOf(fields, values, env)
    requires Distinct(options) && Named(options, logits[..], m)
    modifies logits
    ensures Did(ApplyOne(c, env, m), fault, options, logits[..])
  {
    ResolvedUsable(fields, options, c, d, values, env);
    hide Named, AddConstants, AddProducts, Distinct, AddsOf;
    match d
    case CAdd(adds) =>
      fault := AddAll(adds, logits, options, c.constants, m);
    case CLinear(k, adds) =>
      assert env[c.field] == Plain(values[k]);
      fault := AddProductsTo(adds, NumberOf(values[k]).value, logits, options, c.coefficients, m);
    case CLookup(k, table, onMissing) =>
      assert env[c.field] == Plain(values[k]);
      var key := CanonicalOf(values[k]).value;
      if key in table {
        Found(c.entries, key, options, table);
        ghost var constants := c.entries[EntryOf(c.entries, key)].add;
        fault := AddAll(table[key], logits, options, constants, m);
      } else {
        assert forall i | 0 <= i < |c.entries| :: c.entries[i].key in table;
        fault := if onMissing == Skip then None else Some(NoKey(key));
      }
  }

  /** A lookup by index finds the entry that a lookup by name finds. */
  lemma Found(entries: seq<LookupEntry>, key: Text, options: seq<Str>, table: map<Text, Adds>)
    requires TableOf(options, entries, |entries|, table) && key in table
    ensures HasEntry(entries, key) && AddsOf(options, entries[EntryOf(entries, key)].add, table[key])
  {
    var k :| 0 <= k < |entries| && entries[k].key == key;
    assert EntryAt(entries, key, k);
  }

  method ApplyAll(ds: seq<CContrib>, values: seq<CValue>, logits: array<int>, options: seq<Str>,
                  ghost fields: seq<Field>, ghost cs: seq<Contribution>, ghost env: Env, ghost m: Logits)
    returns (fault: Option<Fault>)
    requires ContributionsOf(fields, options, cs, ds) && EnvOf(fields, values, env)
    requires Distinct(options) && Named(options, logits[..], m)
    modifies logits
    ensures Did(Apply(cs, |cs|, env, m), fault, options, logits[..])
  {
    hide Named, Distinct, ContributionOf, EnvOf, ApplyOne;
    for i := 0 to |ds|
      invariant Apply(cs, i, env, m).Sum? && Named(options, logits[..], Apply(cs, i, env, m).logits)
    {
      fault := ApplyTo(ds[i], values, logits, options, fields, cs[i], env, Apply(cs, i, env, m).logits);
      if fault.Some? {
        StuckEffect(cs, i + 1, |cs|, env, m);
        return;
      }
    }
    return None;
  }

  lemma {:induction false} StuckEffect(cs: seq<Contribution>, k: nat, n: nat, env: Env, m: Logits)
    requires k <= n <= |cs| && !Apply(cs, k, env, m).Sum?
    ensures Apply(cs, n, env, m) == Apply(cs, k, env, m)
  {
    if k < n {
      StuckEffect(cs, k, n - 1, env, m);
    }
  }

  // -------------------------------------------------------------------- fields

  /** `v` as a value of type `ty`, if it is one. */
  method ReadValue(v: Json, ty: FieldType) returns (x: Option<CValue>)
    requires IsJson(v)
    ensures AsValue(v, ty) == if x.Some? then Some(Plain(x.value)) else None
    ensures x.Some? ==> IsLowered(x.value) && HasType(Plain(x.value), ty)
  {
    match ty
    case TText => x := if v.JString? then Some(CText(v.s, Lower(v.s))) else None;
    case TBool => x := if v.JBool? then Some(CBool(v.b)) else None;
    case TInteger => x := if v.JInt? && FitsI64(v.n) then Some(CInteger(v.n)) else None;
    case TDecimal =>
      if !v.JString? {
        return None;
      }
      var r := DecimalText.Parse(Encode(v.s));
      DecimalRead(v.s, r);
      x := if r.Ok? then Some(CDecimal(r.units)) else None;
  }

  lemma DecimalRead(s: Str, r: DecimalText.Result)
    requires DecimalText.Reads(Encode(s), r)
    ensures DecimalOf(s) == if r.Ok? then Some(r.units) else None
  {
    hide DecimalText.Reads, Encode;
    forall u | DecimalText.Reads(Encode(s), DecimalText.Ok(u)) ensures r == DecimalText.Ok(u) {
      DecimalText.ReadsUnique(Encode(s), r, DecimalText.Ok(u));
    }
    assert r.Ok? ==> r == DecimalText.Ok(r.units);
  }

  lemma GotIsJson(v: Json, key: Text)
    requires IsJson(v)
    ensures Get(v, key).Some? ==> IsJson(Get(v, key).value)
  {}

  lemma SourceIsJson(op: Operation, key: Text, doc: Json)
    requires IsJson(doc)
    ensures Source(op, key, doc).Some? ==> IsJson(Source(op, key, doc).value)
  {
    hide Get;
    GotIsJson(doc, Of("presented"));
    GotIsJson(doc, Of("values"));
    if op == Rank && BIND <= key {
      var p := Get(doc, Of("presented"));
      if p.Some? && p.value.JArray? && p.value.items != [] {
        assert IsJson(p.value.items[0]);
        GotIsJson(p.value.items[0], Of("item"));
      }
    } else {
      var values := Get(doc, Of("values"));
      if values.Some? {
        GotIsJson(values.value, key);
      }
    }
  }

  method ReadChecked(op: Operation, f: CField, doc: Json) returns (x: Option<CValue>, reason: Reason)
    requires IsJson(doc)
    ensures ReadAt(op, f.name, f.key, f.member, f.ty, doc) == if x.Some? then Value(Plain(x.value)) else Bad(reason)
    ensures x.Some? ==> IsLowered(x.value) && HasType(Plain(x.value), f.ty)
  {
    reason := Missing(f.name);
    SourceIsJson(op, f.key, doc);
    hide Source, AsValue, Get, IsJson;
    var v := Source(op, f.key, doc);
    if f.member.Some? && v.Some? {
      if !v.value.JObject? && !v.value.JNull? {
        return None, NotARecord(f.name);
      }
      GotIsJson(v.value, f.member.value);
      v := Get(v.value, f.member.value);
    }
    if v.None? || v.value.JNull? {
      return None, reason;
    }
    x := ReadValue(v.value, f.ty);
    reason := Incompatible(f.name);
  }

  /** Reads every declared field before any rule runs; on success the values have the declared
      types. */
  method ReadFields(op: Operation, cs: seq<CField>, doc: Json, ghost fields: seq<Field>)
    returns (values: Option<seq<CValue>>, reason: Reason)
    requires IsJson(doc) && FieldsOf(fields, cs)
    requires forall i, j | 0 <= i < j < |fields| :: fields[i].name != fields[j].name
    ensures match Bind(op, fields, |fields|, doc)
            case Unbound(r) => values.None? && reason == r
            case Bound(env) => values.Some? && EnvOf(fields, values.value, env)
  {
    hide ReadAt, IsJson, Lower, IsLowered, HasType, Plain, EnvTo;
    assert EnvTo(fields, [], map[]) by { NothingRead(fields); }
    var vs: seq<CValue> := [];
    reason := NoTask;
    for i := 0 to |cs|
      invariant |vs| == i && Bind(op, fields, i, doc).Bound?
      invariant EnvTo(fields, vs, Bind(op, fields, i, doc).env)
    {
      assert FieldOf(fields[i], cs[i]);
      var x;
      x, reason := ReadChecked(op, cs[i], doc);
      assert ReadField(op, fields[i], doc) == if x.Some? then Value(Plain(x.value)) else Bad(reason);
      hide ReadField;
      if x.None? {
        UnboundStays(op, fields, i + 1, |fields|, doc);
        return None, reason;
      }
      Rebound(fields, vs, Bind(op, fields, i, doc).env, x.value);
      vs := vs + [x.value];
    }
    AllRead(fields, vs, Bind(op, fields, |fields|, doc).env);
    return Some(vs), reason;
  }

  lemma NothingRead(fields: seq<Field>)
    ensures EnvTo(fields, [], map[])
  {}

  lemma AllRead(fields: seq<Field>, values: seq<CValue>, env: Env)
    requires EnvTo(fields, values, env) && |values| == |fields|
    ensures EnvOf(fields, values, env)
  {
    assert fields[..|fields|] == fields;
  }

  /** `env` binds the first fields to `values`. */
  predicate EnvTo(fields: seq<Field>, values: seq<CValue>, env: Env) {
    && |values| <= |fields|
    && EnvOf(fields[..|values|], values, env)
  }

  lemma Rebound(fields: seq<Field>, vs: seq<CValue>, env: Env, x: CValue)
    requires EnvTo(fields, vs, env) && |vs| < |fields|
    requires forall i, j | 0 <= i < j < |fields| :: fields[i].name != fields[j].name
    requires IsLowered(x) && HasType(Plain(x), fields[|vs|].ty)
    ensures EnvTo(fields, vs + [x], env[fields[|vs|].name := Plain(x)])
  {
    hide IsLowered, HasType, Plain;
    var n := |vs|;
    var ws, init, more := vs + [x], fields[..n], fields[..n + 1];
    forall k | 0 <= k < n + 1
      ensures var e := env[fields[n].name := Plain(x)];
        more[k].name in e && e[more[k].name] == Plain(ws[k]) && IsLowered(ws[k]) && HasType(Plain(ws[k]), more[k].ty)
    {
      if k < n {
        assert init[k] == more[k] == fields[k] && ws[k] == vs[k] && fields[k].name != fields[n].name;
      }
    }
  }

  lemma {:induction false} UnboundStays(op: Operation, fields: seq<Field>, k: nat, n: nat, doc: Json)
    requires k <= n <= |fields| && Bind(op, fields, k, doc).Unbound?
    ensures Bind(op, fields, n, doc) == Bind(op, fields, k, doc)
  {
    if k < n {
      UnboundStays(op, fields, k, n - 1, doc);
    }
  }
}
