/** The compiler of rules programs: checks every bound, name and type, and resolves names to
    indices (backends/rustev-backend-rules/src/program.rs:351-830). */
module RulesCheck {
  import opened JsonGrammar
  import opened P = RulesProgram
  import opened RulesChecked
  import opened RulesFaults
  import opened JsonText

  datatype Result<+T> = Ok(value: T) | Err(kind: Kind) {
    predicate IsFailure() { Err? }
    function PropagateFailure<U>(): Result<U>
      requires Err?
    { Err(kind) }
    function Extract(): T
      requires Ok?
    { value }
  }

  method CheckBound(what: What, found: nat, min: nat, max: nat) returns (r: Result<()>)
    ensures r.Ok? <==> Within(found, min, max)
    ensures r.Err? ==> OutOf(r.kind, what, found, min, max)
  {
    if found < min || found > max {
      return Err(Bound(what, min, max, found));
    }
    return Ok(());
  }

  /** The position of each option. */
  predicate IndexOfOptions(options: seq<Str>, index: map<Str, nat>) {
    && (forall o | o in index :: index[o] < |options| && options[index[o]] == o)
    && forall k | 0 <= k < |options| :: options[k] in index
  }

  predicate IndexOfFields(fields: seq<Field>, index: map<Str, nat>) {
    && (forall f | f in index :: IsField(fields, f, index[f]))
    && forall k | 0 <= k < |fields| :: fields[k].name in index
  }

  method ResolveAdds(cs: Constants, options: map<Str, nat>, mayBeEmpty: bool, ghost names: seq<Str>) returns (r: Result<Adds>)
    requires IndexOfOptions(names, options)
    ensures r.Ok? <==> ConstantsFit(names, cs) && (mayBeEmpty || cs != [])
    ensures r.Ok? ==> AddsOf(names, cs, r.value)
    ensures r.Err? ==> ConstantsFault(names, cs, mayBeEmpty, r.kind)
  {
    if cs == [] && !mayBeEmpty {
      return Err(Bound(OptionConstants, 1, OPTIONS, 0));
    }
    var adds: Adds := [];
    for i := 0 to |cs|
      invariant ConstantsFit(names, cs[..i]) && AddsOf(names, cs[..i], adds)
    {
      if cs[i].option !in options {
        return Err(UnknownOption(cs[i].option));
      }
      assert cs[..i + 1] == cs[..i] + [cs[i]];
      adds := adds + [CConstant(options[cs[i].option], cs[i].units)];
    }
    assert cs[..|cs|] == cs;
    return Ok(adds);
  }

  lemma NextNode(ms: seq<Condition>, k: nat)
    requires k < |ms|
    ensures NodeCounts(ms, k + 1) == NodeCounts(ms, k) + NodeCount(ms[k]) <= NodeCounts(ms, |ms|)
    ensures TermCounts(ms, k + 1) == TermCounts(ms, k) + TermCount(ms[k])
  {
    NodesGrow(ms, k + 1, |ms|);
  }

  /** The state of checking one task: its names, and counts that span its rules. */
  class TaskCx {
    const options: map<Str, nat>
    const fields: seq<CField>
    const fieldIndex: map<Str, nat>
    var terms: nat
    var entries: nat
    ghost const names: seq<Str>
    ghost const declared: seq<Field>

    constructor (options: map<Str, nat>, fields: seq<CField>, fieldIndex: map<Str, nat>,
                 ghost names: seq<Str>, ghost declared: seq<Field>)
      requires IndexOfOptions(names, options) && IndexOfFields(declared, fieldIndex) && FieldsOf(declared, fields)
      requires forall i, j | 0 <= i < j < |declared| :: declared[i].name != declared[j].name
      ensures Valid() && this.names == names && this.declared == declared && terms == 0 && entries == 0
    {
      this.options, this.fields, this.fieldIndex := options, fields, fieldIndex;
      this.names, this.declared := names, declared;
      terms, entries := 0, 0;
    }

    ghost predicate Valid() {
      && IndexOfOptions(names, options) && IndexOfFields(declared, fieldIndex) && FieldsOf(declared, fields)
      && forall i, j | 0 <= i < j < |declared| :: declared[i].name != declared[j].name
    }

    method Field(name: Str, accepts: seq<FieldType>) returns (r: Result<nat>)
      requires Valid()
      ensures r.Ok? <==> Usable(declared, name, accepts)
      ensures r.Ok? ==> IsField(declared, name, r.value) && declared[r.value].ty in accepts
      ensures r.Err? ==> FieldFault(declared, name, accepts, r.kind)
    {
      if name !in fieldIndex {
        return Err(UnknownField(name));
      }
      var k := fieldIndex[name];
      var found := fields[k].ty;
      assert Declares(declared, name, found) && forall ty | Declares(declared, name, ty) :: ty == found;
      if found !in accepts {
        return Err(WrongType(name, found));
      }
      return Ok(k);
    }

    method Condition(c: Condition, depth: nat, nodes: nat) returns (r: Result<CCond>, seen: nat)
      requires Valid() && depth <= CONDITION_DEPTH && nodes <= CONDITION_NODES
      modifies this`terms
      ensures r.Ok? <==> ConditionFits(declared, c, CONDITION_DEPTH - depth) && nodes + NodeCount(c) <= CONDITION_NODES
      ensures r.Ok? ==> ConditionOf(declared, c, r.value) && seen == nodes + NodeCount(c) && terms == old(terms) + TermCount(c)
      ensures r.Err? ==> NestedFault(declared, c, depth, nodes, r.kind)
      decreases c, 1
    {
      hide OutOf, FieldFault, Encode, IndexOfOptions, IndexOfFields, FieldsOf;
      seen := nodes + 1;
      if seen > CONDITION_NODES {
        return Err(Bound(ConditionNodes, 1, CONDITION_NODES, seen)), seen;
      }
      match c
      case Always => r := Ok(CAlways);
      case ContainsAny(f, ts) => r := ContainsAny(f, ts);
      case Equals(f, t) => r := Equals(f, t);
      case Compare(f, op, u) =>
        r := Compare(f, op, u);
      case All(ms) =>
        var v: Result<seq<CCond>>;
        v, seen := Members(c, ms, depth, seen);
        r := if v.Ok? then Ok(CAll(v.value)) else Err(v.kind);
      case Any(ms) =>
        var v: Result<seq<CCond>>;
        v, seen := Members(c, ms, depth, seen);
        r := if v.Ok? then Ok(CAny(v.value)) else Err(v.kind);
      case Not(x) =>
        if depth + 1 > CONDITION_DEPTH {
          return Err(Bound(ConditionDepth, 0, CONDITION_DEPTH, depth + 1)), seen;
        }
        var y: Result<CCond>;
        y, seen := Condition(x, depth + 1, seen);
        r := if y.Ok? then Ok(CNot(y.value)) else Err(y.kind);
    }

    method ContainsAny(f: Str, ts: seq<Str>) returns (r: Result<CCond>)
      requires Valid()
      modifies this`terms
      ensures r.Ok? <==> ConditionFits(declared, P.Condition.ContainsAny(f, ts), 0)
      ensures r.Ok? ==> ConditionOf(declared, P.Condition.ContainsAny(f, ts), r.value) && terms == old(terms) + |ts|
      ensures r.Err? ==> ConditionFault(declared, P.Condition.ContainsAny(f, ts), r.kind)
    {
      hide Encode, FieldFault, OutOf;
      var k := Field(f, TEXTS);
      if k.Err? {
        return Err(k.kind);
      }
      var b := CheckBound(TermsInCondition, |ts|, 1, TERMS);
      if b.Err? {
        return Err(b.kind);
      }
      var lower: seq<Str> := [];
      for i := 0 to |ts|
        invariant terms == old(terms)
        invariant |lower| == i && forall j | 0 <= j < i :: lower[j] == Lower(ts[j]) && Within(Len(ts[j]), 1, TERM_BYTES)
      {
        b := CheckBound(TermBytes, Len(ts[i]), 1, TERM_BYTES);
        if b.Err? {
          return Err(b.kind);
        }
        lower := lower + [Lower(ts[i])];
      }
      terms := terms + |ts|;
      return Ok(CContainsAny(k.value, lower));
    }

    method Equals(f: Str, t: Str) returns (r: Result<CCond>)
      requires Valid()
      ensures r.Ok? <==> ConditionFits(declared, P.Condition.Equals(f, t), 0)
      ensures r.Ok? ==> ConditionOf(declared, P.Condition.Equals(f, t), r.value)
      ensures r.Err? ==> ConditionFault(declared, P.Condition.Equals(f, t), r.kind)
    {
      var k := Field(f, DISCRETE);
      if k.Err? {
        return Err(k.kind);
      }
      var ty := fields[k.value].ty;
      AcceptsValueTexts(ty, t);
      assert Declares(declared, f, ty) && forall u | Declares(declared, f, u) :: u == ty;
      if !CanonicalFor(ty, t) {
        return Err(EqualsValue(t));
      }
      return Ok(CEquals(k.value, t));
    }

    method Compare(f: Str, op: CompareOp, u: int) returns (r: Result<CCond>)
      requires Valid()
      ensures r.Ok? <==> ConditionFits(declared, P.Condition.Compare(f, op, u), 0)
      ensures r.Ok? ==> ConditionOf(declared, P.Condition.Compare(f, op, u), r.value)
      ensures r.Err? ==> ConditionFault(declared, P.Condition.Compare(f, op, u), r.kind)
    {
      hide FieldFault, DeclaresNumeric, Usable;
      AcceptedFields(declared, f);
      var k := Field(f, NUMERIC);
      return if k.Ok? then Ok(CCompare(k.value, op, u)) else Err(k.kind);
    }

    method Members(ghost c: Condition, ms: seq<Condition>, depth: nat, nodes: nat) returns (r: Result<seq<CCond>>, seen: nat)
      requires Valid() && depth <= CONDITION_DEPTH && 1 <= nodes <= CONDITION_NODES
      requires c == All(ms) || c == Any(ms)
      modifies this`terms
      ensures r.Ok? <==>
              && depth < CONDITION_DEPTH && Within(|ms|, 1, CONDITION_MEMBERS)
              && MembersFit(declared, ms, CONDITION_DEPTH - depth - 1)
              && nodes + NodeCounts(ms, |ms|) <= CONDITION_NODES
      ensures r.Ok? ==>
                && |r.value| == |ms| && (forall i | 0 <= i < |ms| :: ConditionOf(declared, ms[i], r.value[i]))
                && seen == nodes + NodeCounts(ms, |ms|) && terms == old(terms) + TermCounts(ms, |ms|)
      ensures r.Err? ==> NestedFault(declared, c, depth, nodes - 1, r.kind)
      decreases c, 0
    {
      seen := nodes;
      assert NodeCounts(ms, 0) == 0 && TermCounts(ms, 0) == 0;
      hide NestedFault, OutOf, ConditionFits, ConditionOf, NodeCount, TermCount, NodeCounts, TermCounts,
           IndexOfOptions, IndexOfFields, FieldsOf;
      if depth + 1 > CONDITION_DEPTH {
        TooDeepFault(declared, c, ms, depth, nodes);
        return Err(Bound(ConditionDepth, 0, CONDITION_DEPTH, depth + 1)), seen;
      }
      var b := CheckBound(ConditionMembers, |ms|, 1, CONDITION_MEMBERS);
      if b.Err? {
        CountFault(declared, c, ms, depth, nodes, b.kind);
        return Err(b.kind), seen;
      }
      var v: seq<CCond> := [];
      for k := 0 to |ms|
        invariant |v| == k && seen == nodes + NodeCounts(ms, k) <= CONDITION_NODES
        invariant terms == old(terms) + TermCounts(ms, k)
        invariant forall i | 0 <= i < k ::
                    ConditionOf(declared, ms[i], v[i]) && ConditionFits(declared, ms[i], CONDITION_DEPTH - depth - 1)
      {
        NextNode(ms, k);
        var m: Result<CCond>;
        m, seen := Condition(ms[k], depth + 1, seen);
        if m.Err? {
          MemberFault(declared, c, ms, k, depth, nodes, m.kind);
          return Err(m.kind), seen;
        }
        v := v + [m.value];
      }
      return Ok(v), seen;
    }

    method Contribution(c: Contribution) returns (r: Result<CContrib>)
      requires Valid()
      modifies this`entries
      ensures r.Ok? <==> ContributionFits(declared, names, c)
      ensures r.Ok? ==> ContributionOf(declared, names, c, r.value) && entries == old(entries) + EntryCount(c)
      ensures r.Err? ==> ContributionFault(declared, names, c, r.kind)
    {
      assert IndexOfOptions(names, options);
      hide Valid, FieldFault, ConstantsFault, AddsOf, ConstantsFit, DeclaresNumeric, Usable;
      AcceptedFields(declared, if c.Add? then [] else c.field);
      match c
      case Add(cs) =>
        var adds := ResolveAdds(cs, options, false, names);
        r := if adds.Ok? then Ok(CAdd(adds.value)) else Err(adds.kind);
      case Linear(f, cs) =>
        var k := Field(f, NUMERIC);
        if k.Err? {
          return Err(k.kind);
        }
        var adds := ResolveAdds(cs, options, false, names);
        r := if adds.Ok? then Ok(CLinear(k.value, adds.value)) else Err(adds.kind);
      case Lookup(f, es, onMissing) =>
        r := LookupBy(f, es, onMissing);
    }

    method LookupBy(f: Str, es: seq<LookupEntry>, onMissing: OnMissing) returns (r: Result<CContrib>)
      requires Valid()
      modifies this`entries
      ensures var c := Lookup(f, es, onMissing);
        && (r.Ok? <==> ContributionFits(declared, names, c))
        && (r.Ok? ==> ContributionOf(declared, names, c, r.value) && entries == old(entries) + EntryCount(c))
        && (r.Err? ==> ContributionFault(declared, names, c, r.kind))
    {
      hide Valid, FieldFault, EntriesFault, OutOf, TableOf, EntriesFit, DeclaresDiscrete, Usable;
      AcceptedFields(declared, f);
      var k := Field(f, DISCRETE);
      if k.Err? {
        return Err(k.kind);
      }
      var b := CheckBound(LookupEntries, |es|, 1, LOOKUP_ENTRIES);
      if b.Err? {
        return Err(b.kind);
      }
      entries := entries + |es|;
      var table := Table(es);
      return if table.Ok? then Ok(CLookup(k.value, table.value, onMissing)) else Err(table.kind);
    }

    method Table(es: seq<LookupEntry>) returns (r: Result<map<Text, Adds>>)
      requires Valid()
      ensures r.Ok? <==> EntriesFit(names, es, |es|)
      ensures r.Ok? ==> TableOf(names, es, |es|, r.value)
      ensures r.Err? ==> EntriesFault(names, es, r.kind)
    {
      assert IndexOfOptions(names, options);
      hide IndexOfOptions, AddsOf, ConstantsFit, Encode, EntryFault, TableOf, EntriesFit, IndexOfFields, FieldsOf;
      var table: map<Text, Adds> := map[];
      NoEntries(names, es);
      for e := 0 to |es|
        invariant EntriesFit(names, es, e) && TableOf(names, es, e, table)
      {
        var entry := es[e];
        NextEntry(names, es, e, table);
        var b := CheckBound(LookupKeyBytes, Len(entry.key), 1, LOOKUP_KEY_BYTES);
        if b.Err? {
          return Err(b.kind);
        }
        var adds := ResolveAdds(entry.add, options, false, names);
        if adds.Err? {
          return Err(adds.kind);
        }
        if entry.key in table {
          RepeatedKey(names, es, e, table);
          return Err(Duplicate(AKey, entry.key));
        }
        Extend(names, es, e, table, adds.value);
        table := table[entry.key := adds.value];
      }
      return Ok(table);
    }
  }

  /** What numeric and discrete fields are to the compiler. */
  lemma AcceptedFields(fields: seq<P.Field>, f: Str)
    ensures DeclaresNumeric(fields, f) <==> Usable(fields, f, NUMERIC)
    ensures DeclaresDiscrete(fields, f) <==> Usable(fields, f, DISCRETE)
  {}

  lemma RepeatedKey(names: seq<Str>, es: seq<LookupEntry>, e: nat, table: map<Text, Adds>)
    requires e < |es| && TableOf(names, es, e, table) && es[e].key in table
    ensures EntriesFault(names, es, Duplicate(AKey, es[e].key))
  {
    hide AddsOf;
    var keys := KeysOf(es);
    var i :| 0 <= i < e && es[i].key == es[e].key;
    assert keys[i] == keys[e];
  }

  lemma NoEntries(names: seq<Str>, es: seq<LookupEntry>)
    ensures EntriesFit(names, es, 0) && TableOf(names, es, 0, map[])
  {}

  lemma NextEntry(names: seq<Str>, es: seq<LookupEntry>, e: nat, table: map<Text, Adds>)
    requires e < |es| && EntriesFit(names, es, e) && TableOf(names, es, e, table)
    ensures EntriesFit(names, es, e + 1) <==> EntryFits(names, es[e]) && es[e].key !in table
    ensures EntriesFit(names, es, |es|) ==> EntriesFit(names, es, e + 1)
  {
    hide EntryFits, AddsOf;
  }

  lemma Extend(names: seq<Str>, es: seq<LookupEntry>, e: nat, table: map<Text, Adds>, adds: Adds)
    requires e < |es| && TableOf(names, es, e, table) && es[e].key !in table && AddsOf(names, es[e].add, adds)
    ensures TableOf(names, es, e + 1, table[es[e].key := adds])
  {
    hide AddsOf;
    var next := table[es[e].key := adds];
    forall key | key in next ensures exists i | 0 <= i < e + 1 :: es[i].key == key {
      if key != es[e].key {
        var i :| 0 <= i < e && es[i].key == key;
      }
    }
  }

  // -------------------------------------------------------------------- tasks

  method CheckOptions(t: Task) returns (r: Result<map<Str, nat>>)
    requires t.operation == Rank ==> t.options == [Of("score")]
    ensures r.Ok? <==> OptionsFit(t)
    ensures r.Ok? ==> IndexOfOptions(t.options, r.value)
    ensures r.Err? ==> OptionsFault(t, r.kind)
  {
    var b := CheckBound(Options, |t.options|, if t.operation == Rank then 1 else OPTIONS_MIN, OPTIONS);
    if b.Err? {
      return Err(b.kind);
    }
    var options: map<Str, nat> := map[];
    for k := 0 to |t.options|
      invariant forall o | o in options :: options[o] < k && t.options[options[o]] == o
      invariant forall i | 0 <= i < k :: t.options[i] in options && Within(Len(t.options[i]), 1, OPTION_BYTES)
      invariant forall i, j | 0 <= i < j < k :: t.options[i] != t.options[j]
    {
      b := CheckBound(OptionBytes, Len(t.options[k]), 1, OPTION_BYTES);
      if b.Err? {
        return Err(b.kind);
      }
      if t.options[k] in options {
        return Err(Duplicate(AnOption, t.options[k]));
      }
      options := options[t.options[k] := k];
    }
    if t.operation == Proposition && t.options != [Of("false"), Of("true")] {
      return Err(PropositionOptions);
    }
    return Ok(options);
  }

  method CheckFields(t: Task) returns (r: Result<(seq<CField>, map<Str, nat>)>)
    ensures r.Ok? <==> FieldsFit(t.fields)
    ensures r.Ok? ==> FieldsOf(t.fields, r.value.0) && IndexOfFields(t.fields, r.value.1)
    ensures r.Err? ==> FieldsFault(t.fields, r.kind)
  {
    hide Encode, ParseRef, Refers, Declares, IsValueText;
    var b := CheckBound(Fields, |t.fields|, 0, FIELDS);
    if b.Err? {
      return Err(b.kind);
    }
    var fields: seq<CField> := [];
    var index: map<Str, nat> := map[];
    for k := 0 to |t.fields|
      invariant |fields| == k && forall i | 0 <= i < k :: FieldOf(t.fields[i], fields[i]) && FieldFits(t.fields[i])
      invariant forall f | f in index :: index[f] < k && t.fields[index[f]].name == f
      invariant forall i | 0 <= i < k :: t.fields[i].name in index
      invariant forall i, j | 0 <= i < j < k :: t.fields[i].name != t.fields[j].name
    {
      var f := t.fields[k];
      b := CheckBound(FieldNameBytes, Len(f.name), 1, NAME_BYTES);
      if b.Err? {
        return Err(b.kind);
      }
      if f.name in index {
        assert FieldNames(t.fields)[index[f.name]] == FieldNames(t.fields)[k];
        return Err(Duplicate(AField, f.name));
      }
      index := index[f.name := k];
      match ParseRef(f.reference)
      case None =>
        forall key, m ensures !Refers(f.reference, key, m) {
          ParseRefReads(f.reference, key, m);
        }
        return Err(Reference(f.reference));
      case Some((key, member)) =>
        fields := fields + [CField(f.name, key, member, f.ty)];
    }
    return Ok((fields, index));
  }

  method CheckBase(t: Task, options: map<Str, nat>) returns (r: Result<seq<int>>)
    requires OptionsFit(t) && IndexOfOptions(t.options, options)
    ensures r.Ok? <==> ConstantsFit(t.options, t.base)
    ensures r.Ok? ==> BaseOf(t.options, t.base, r.value)
    ensures r.Err? ==> ConstantsFault(t.options, t.base, true, r.kind)
  {
    var adds := ResolveAdds(t.base, options, true, t.options);
    if adds.Err? {
      return Err(adds.kind);
    }
    var base := Spread(t.options, t.base, adds.value);
    return Ok(base);
  }

  method Spread(options: seq<Str>, ghost cs: Constants, adds: Adds) returns (base: seq<int>)
    requires forall i, j | 0 <= i < j < |options| :: options[i] != options[j]
    requires AddsOf(options, cs, adds)
    ensures BaseOf(options, cs, base)
  {
    hide Ordered, Encode;
    var v := new int[|options|](_ => 0);
    for i := 0 to |adds|
      invariant forall j, k | 0 <= j < i && 0 <= k < |options| && options[k] == cs[j].option :: v[k] == cs[j].units
      invariant forall k | 0 <= k < |options| && (forall j | 0 <= j < i :: cs[j].option != options[k]) :: v[k] == 0
    {
      DistinctConstants(cs, i);
      assert options[adds[i].option] == cs[i].option;
      v[adds[i].option] := adds[i].units;
    }
    return v[..];
  }

  lemma DistinctConstants(cs: Constants, i: nat)
    requires i < |cs|
    ensures forall j | 0 <= j < i :: cs[j].option != cs[i].option
  {
    forall j | 0 <= j < i ensures cs[j].option != cs[i].option {
      LessIrreflexive(Encode(cs[i].option));
    }
  }

  method CheckContributions(cx: TaskCx, cs: seq<Contribution>) returns (r: Result<seq<CContrib>>)
    requires cx.Valid()
    modifies cx`terms, cx`entries
    ensures r.Ok? <==> ContributionsFit(cx.declared, cx.names, cs)
    ensures r.Ok? ==> ContributionsOf(cx.declared, cx.names, cs, r.value)
    ensures r.Ok? ==> cx.terms == old(cx.terms) && cx.entries == old(cx.entries) + EntryCounts(cs, |cs|)
    ensures r.Err? ==> exists k :: 0 <= k < |cs| && ContributionFault(cx.declared, cx.names, cs[k], r.kind)
  {
    hide ContributionFault, ContributionFits, ContributionOf, EntryCount, IndexOfOptions, IndexOfFields, FieldsOf,
         ConditionOf, ConditionFits;
    var contributions: seq<CContrib> := [];
    for k := 0 to |cs|
      invariant |contributions| == k
      invariant forall i | 0 <= i < k :: ContributionOf(cx.declared, cx.names, cs[i], contributions[i])
      invariant forall i | 0 <= i < k :: ContributionFits(cx.declared, cx.names, cs[i])
      invariant cx.terms == old(cx.terms) && cx.entries == old(cx.entries) + EntryCounts(cs, k)
    {
      var contribution := cx.Contribution(cs[k]);
      if contribution.Err? {
        return Err(contribution.kind);
      }
      contributions := contributions + [contribution.value];
    }
    return Ok(contributions);
  }

  method CheckRule(cx: TaskCx, r: Rule) returns (c: Result<CRule>)
    requires cx.Valid()
    requires Within(Len(r.name), 1, NAME_BYTES)
    modifies cx`terms, cx`entries
    ensures c.Ok? <==> RuleFits(cx.declared, cx.names, r)
    ensures c.Ok? ==> RuleOf(cx.declared, cx.names, r, c.value)
    ensures c.Ok? ==> cx.terms == old(cx.terms) + TermCount(r.cond) && cx.entries == old(cx.entries) + EntryCounts(r.contributions, |r.contributions|)
    ensures c.Err? ==> RuleFault(cx.declared, cx.names, r, c.kind)
  {
    hide NestedFault, ContributionFault, OutOf, ConditionFits, ContributionsFit, ConditionOf, ContributionsOf,
         NodeCount, TermCount, EntryCounts, Encode;
    var cond, nodes := cx.Condition(r.cond, 0, 0);
    if cond.Err? {
      return Err(cond.kind);
    }
    var b := CheckBound(ConditionNodes, nodes, 1, CONDITION_NODES);
    assert b.Ok?; // every node was counted against the bound already
    b := CheckBound(Contributions, |r.contributions|, 0, CONTRIBUTIONS);
    if b.Err? {
      return Err(b.kind);
    }
    var contributions := CheckContributions(cx, r.contributions);
    if contributions.Err? {
      return Err(contributions.kind);
    }
    return Ok(CRule(r.name, cond.value, contributions.value, r.stop));
  }

  /** Names of the first `k` rules. */
  ghost function NamesOf(rs: seq<Rule>, k: nat): (names: set<Str>)
    requires k <= |rs|
    ensures forall i | 0 <= i < k :: rs[i].name in names
    ensures forall n | n in names :: exists i | 0 <= i < k :: rs[i].name == n
  {
    if k == 0 then {} else NamesOf(rs, k - 1) + {rs[k - 1].name}
  }

  /** The first `k` rules fit, and no two have one name. */
  ghost predicate FirstFit(fields: seq<P.Field>, options: seq<Str>, rs: seq<Rule>, k: nat)
    requires k <= |rs|
  {
    k == 0 || (FirstFit(fields, options, rs, k - 1) && RuleFits(fields, options, rs[k - 1])
               && rs[k - 1].name !in NamesOf(rs, k - 1))
  }

  lemma {:induction false} FirstFitEach(fields: seq<P.Field>, options: seq<Str>, rs: seq<Rule>, k: nat)
    requires k <= |rs|
    ensures FirstFit(fields, options, rs, k) <==>
            (forall i | 0 <= i < k :: RuleFits(fields, options, rs[i]))
            && forall i, j | 0 <= i < j < k :: rs[i].name != rs[j].name
  {
    hide RuleFits, NamesOf;
    if k > 0 {
      FirstFitEach(fields, options, rs, k - 1);
      assert rs[k - 1].name !in NamesOf(rs, k - 1) <==> forall i | 0 <= i < k - 1 :: rs[i].name != rs[k - 1].name;
    }
  }

  lemma {:induction false} FirstFitGrows(fields: seq<P.Field>, options: seq<Str>, rs: seq<Rule>, k: nat, n: nat)
    requires k <= n <= |rs| && FirstFit(fields, options, rs, n)
    ensures FirstFit(fields, options, rs, k)
  {
    hide RuleFits;
    if k < n {
      FirstFitGrows(fields, options, rs, k, n - 1);
    }
  }

  method CheckNamed(cx: TaskCx, r: Rule, names: set<Str>) returns (c: Result<CRule>)
    requires cx.Valid()
    modifies cx`terms, cx`entries
    ensures c.Ok? <==> r.name !in names && RuleFits(cx.declared, cx.names, r)
    ensures c.Ok? ==> RuleOf(cx.declared, cx.names, r, c.value)
    ensures c.Ok? ==> cx.terms == old(cx.terms) + TermCount(r.cond) && cx.entries == old(cx.entries) + EntryCounts(r.contributions, |r.contributions|)
    ensures c.Err? ==> (r.name in names && c.kind == Duplicate(ARule, r.name)) || RuleFault(cx.declared, cx.names, r, c.kind)
  {
    hide NestedFault, OutOf, RuleFits, RuleOf, Encode, TermCount, EntryCounts;
    hide IndexOfOptions, IndexOfFields, FieldsOf;
    var b := CheckBound(RuleNameBytes, Len(r.name), 1, NAME_BYTES);
    if b.Err? {
      return Err(b.kind);
    }
    if r.name in names {
      return Err(Duplicate(ARule, r.name));
    }
    c := CheckRule(cx, r);
  }

  method CheckEachRule(cx: TaskCx, rs: seq<Rule>) returns (r: Result<seq<CRule>>)
    requires cx.Valid() && cx.terms == 0 && cx.entries == 0
    modifies cx`terms, cx`entries
    ensures r.Ok? <==> FirstFit(cx.declared, cx.names, rs, |rs|)
    ensures r.Ok? ==> RulesOf(cx.declared, cx.names, rs, r.value)
    ensures r.Ok? ==> cx.terms == TermsInRules(rs, |rs|) && cx.entries == EntriesInRules(rs, |rs|)
    ensures r.Err? ==>
              || Repeats(r.kind, ARule, RuleNames(rs))
              || exists k :: 0 <= k < |rs| && RuleFault(cx.declared, cx.names, rs[k], r.kind)
  {
    hide RuleFault, RuleFits, RuleOf, Encode, TermCount, EntryCounts;
    hide IndexOfOptions, IndexOfFields, FieldsOf;
    var names: set<Str> := {};
    var rules: seq<CRule> := [];
    for k := 0 to |rs|
      invariant |rules| == k && forall i | 0 <= i < k :: RuleOf(cx.declared, cx.names, rs[i], rules[i])
      invariant FirstFit(cx.declared, cx.names, rs, k) && names == NamesOf(rs, k)
      invariant cx.terms == TermsInRules(rs, k) && cx.entries == EntriesInRules(rs, k)
    {
      var rule := CheckNamed(cx, rs[k], names);
      if rule.Err? {
        if rs[k].name in names {
          ghost var i :| 0 <= i < k && rs[i].name == rs[k].name;
          assert RuleNames(rs)[i] == RuleNames(rs)[k];
        }
        if FirstFit(cx.declared, cx.names, rs, |rs|) {
          FirstFitGrows(cx.declared, cx.names, rs, k + 1, |rs|);
        }
        return Err(rule.kind);
      }
      names := names + {rs[k].name};
      rules := rules + [rule.value];
    }
    return Ok(rules);
  }

  method CheckRules(cx: TaskCx, t: Task) returns (r: Result<seq<CRule>>)
    requires cx.Valid() && cx.terms == 0 && cx.entries == 0 && cx.declared == t.fields && cx.names == t.options
    modifies cx`terms, cx`entries
    ensures r.Ok? <==> RulesFit(t)
    ensures r.Ok? ==> RulesOf(t.fields, t.options, t.rules, r.value)
    ensures r.Err? ==> RulesFault(t, r.kind)
  {
    hide RuleFault, Repeats, OutOf, RuleFits, RulesOf, TermsInRules, EntriesInRules, Encode;
    var b := CheckBound(What.Rules, |t.rules|, 0, RULES);
    if b.Err? {
      return Err(b.kind);
    }
    var rules := CheckEachRule(cx, t.rules);
    FirstFitEach(t.fields, t.options, t.rules, |t.rules|);
    if rules.Err? {
      return Err(rules.kind);
    }
    b := CheckBound(TermsPerTask, cx.terms, 0, TERMS_PER_TASK);
    if b.Err? {
      return Err(b.kind);
    }
    b := CheckBound(EntriesPerTask, cx.entries, 0, LOOKUP_ENTRIES_PER_TASK);
    if b.Err? {
      return Err(b.kind);
    }
    return rules;
  }

  /** A task is accepted exactly when it fits, and its checked form is the task resolved. */
  method CheckTask(t: Task) returns (r: Result<CTask>)
    ensures r.Ok? <==> TaskFits(t)
    ensures r.Ok? ==> TaskOf(t, r.value)
    ensures r.Err? ==> TaskFault(t, r.kind)
  {
    hide OptionsFault, FieldsFault, RulesFault, ConstantsFault, OutOf, RulesFit, FieldFits, ConstantsFit, FieldsOf,
         BaseOf, RulesOf, Encode, IndexOfOptions, IndexOfFields;
    if t.operation == Rank && t.options != [Of("score")] {
      return Err(UnsupportedOperation);
    }
    var b := CheckBound(TaskBytes, Len(t.task), 1, TASK_BYTES);
    if b.Err? {
      return Err(b.kind);
    }
    b := CheckBound(QuestionBytes, Len(t.question), 1, QUESTION_BYTES);
    if b.Err? {
      return Err(b.kind);
    }
    var options := CheckOptions(t);
    if options.Err? {
      return Err(options.kind);
    }
    b := CheckBound(InterpretationBytes, Len(t.interpretation), 1, INTERPRETATION_BYTES);
    if b.Err? {
      return Err(b.kind);
    }
    if Blank(t.interpretation) {
      return Err(Interpretation);
    }
    var fields := CheckFields(t);
    if fields.Err? {
      return Err(fields.kind);
    }
    var base := CheckBase(t, options.value);
    if base.Err? {
      return Err(base.kind);
    }
    var cx := new TaskCx(options.value, fields.value.0, fields.value.1, t.options, t.fields);
    var rules := CheckRules(cx, t);
    if rules.Err? {
      return Err(rules.kind);
    }
    return Ok(CTask(t.operation, t.task, t.question, t.options, fields.value.0, base.value, rules.value, t.onNoMatch));
  }

  /** A program is accepted exactly when it fits, and its tasks are resolved in their order. */
  method Check(p: Program) returns (r: Result<seq<CTask>>)
    ensures r.Ok? <==> ProgramFits(p)
    ensures r.Ok? ==> TasksOf(p.tasks, r.value)
    ensures r.Err? ==> ProgramFault(p, r.kind)
  {
    hide TaskFits, TaskOf, TaskFault;
    if p.schema != SCHEMA {
      return Err(Schema(if |p.schema| > 80 then p.schema[..80] else p.schema));
    }
    if p.backendId == [] || Len(p.backendId) > BACKEND_ID_BYTES || exists i | 0 <= i < |p.backendId| :: !IdChar(p.backendId[i]) {
      return Err(BackendId);
    }
    var b := CheckBound(ProjectionBytes, p.maxProjectionBytes, 1, MAX_PROJECTION_BYTES);
    if b.Err? {
      return Err(b.kind);
    }
    b := CheckBound(What.Tasks, |p.tasks|, 1, TASKS);
    if b.Err? {
      return Err(b.kind);
    }
    var names: set<Str> := {};
    var tasks: seq<CTask> := [];
    for i := 0 to |p.tasks|
      invariant |tasks| == i && forall k | 0 <= k < i :: TaskOf(p.tasks[k], tasks[k]) && TaskFits(p.tasks[k])
      invariant forall n :: n in names <==> exists k | 0 <= k < i :: p.tasks[k].task == n
      invariant forall j, k | 0 <= j < k < i :: p.tasks[j].task != p.tasks[k].task
    {
      if p.tasks[i].task in names {
        ghost var k :| 0 <= k < i && p.tasks[k].task == p.tasks[i].task;
        assert TaskNames(p.tasks)[k] == TaskNames(p.tasks)[i];
        return Err(Duplicate(ATask, p.tasks[i].task));
      }
      names := names + {p.tasks[i].task};
      var task := CheckTask(p.tasks[i]);
      if task.Err? {
        return Err(task.kind);
      }
      tasks := tasks + [task.value];
    }
    return Ok(tasks);
  }
}
