/** The projection that a host writes for a task is answered by that task, and its fields read what
    the host wrote (crates/rustev-core/src/evaluate.rs:2801-2809, ranking_eval.rs:219-250,
    value.rs:355-368; backends/rustev-backend-rules/src/eval.rs:155-252). */
module RulesProjection {
  import opened Wrappers
  import opened Canonical
  import opened JsonText
  import opened P = RulesProgram
  import opened M = RulesMeaning
  import opened JsonGrammar
  import Decimal
  import DecimalText
  import Digits

  // ------------------------------------------------------------- what is written

  /** A scalar as the host writes it: a decimal is a text. */
  function Rendered(v: FieldValue): Json {
    match v
    case VText(s) => JString(s)
    case VBool(b) => JBool(b)
    case VInteger(i) => JInt(i)
    case VDecimal(u) => JString(DecimalText.Print(u))
  }

  function Envelope(t: Task, candidates: Json, instance: Json, values: seq<Member>): Json {
    JObject([Member(Of("candidates"), candidates),
             Member(Of("instance"), instance),
             Member(Of("operation"), JString(OperationName(t.operation))),
             Member(Of("options"), Texts(t.options)),
             Member(Of("question"), JString(t.question)),
             Member(Of("task"), JString(t.task)),
             Member(Of("values"), JObject(values))])
  }

  /** One candidate of a pointwise ranking. */
  function RankEnvelope(t: Task, id: Str, item: Json, values: seq<Member>): Json {
    JObject([Member(Of("candidates"), JArray([JString(id)])),
             Member(Of("instance"), JObject([])),
             Member(Of("mode"), JString(Of("pointwise"))),
             Member(Of("operation"), JString(Of("rank"))),
             Member(Of("options"), JArray([])),
             Member(Of("presented"), JArray([JObject([Member(Of("id"), JString(id)), Member(Of("item"), item)])])),
             Member(Of("question"), JString(t.question)),
             Member(Of("task"), JString(t.task)),
             Member(Of("values"), JObject(values))])
  }

  // ----------------------------------------------------------------- who answers

  lemma MemberIsGot(ms: seq<Member>, i: nat)
    requires i < |ms| && Distinct(KeysOf(ms))
    ensures Get(JObject(ms), ms[i].key) == Some(ms[i].value)
  {
    IndexOfItself(ms, i);
  }

  predicate Written(doc: Json, key: Text, v: Json) {
    Get(doc, key) == Some(v)
  }

  lemma EnvelopeHolds(t: Task, candidates: Json, instance: Json, values: seq<Member>)
    ensures var doc := Envelope(t, candidates, instance, values);
      && Written(doc, Of("operation"), JString(OperationName(t.operation)))
      && Written(doc, Of("options"), Texts(t.options))
      && Written(doc, Of("question"), JString(t.question))
      && Written(doc, Of("task"), JString(t.task))
      && Written(doc, Of("values"), JObject(values))
  {
    var ms := Envelope(t, candidates, instance, values).members;
    var ks := KeysOf(ms);
    assert ks == [Of("candidates"), Of("instance"), Of("operation"), Of("options"), Of("question"), Of("task"), Of("values")];
    assert ks[1][0] != ks[4][0];
    assert Distinct(ks);
    MemberIsGot(ms, 2);
    MemberIsGot(ms, 3);
    MemberIsGot(ms, 4);
    MemberIsGot(ms, 5);
    MemberIsGot(ms, 6);
  }

  lemma RankEnvelopeHolds(t: Task, id: Str, item: Json, values: seq<Member>)
    ensures var doc, one := RankEnvelope(t, id, item, values), JObject([Member(Of("id"), JString(id)), Member(Of("item"), item)]);
      && Written(doc, Of("candidates"), JArray([JString(id)]))
      && Written(doc, Of("mode"), JString(Of("pointwise")))
      && Written(doc, Of("operation"), JString(OperationName(Rank)))
      && Written(doc, Of("options"), JArray([]))
      && Written(doc, Of("presented"), JArray([one]))
      && Written(doc, Of("question"), JString(t.question))
      && Written(doc, Of("task"), JString(t.task))
      && Written(doc, Of("values"), JObject(values))
      && Written(one, Of("id"), JString(id)) && Written(one, Of("item"), item)
  {
    hide Of, Distinct, Get;
    var ms := RankEnvelope(t, id, item, values).members;
    assert KeysOf(ms) == RankKeys();
    RankKeysDiffer();
    MemberIsGot(ms, 0);
    MemberIsGot(ms, 2);
    MemberIsGot(ms, 3);
    MemberIsGot(ms, 4);
    MemberIsGot(ms, 5);
    MemberIsGot(ms, 6);
    MemberIsGot(ms, 7);
    MemberIsGot(ms, 8);
    var one := [Member(Of("id"), JString(id)), Member(Of("item"), item)];
    assert KeysOf(one) == [Of("id"), Of("item")];
    MemberIsGot(one, 0);
    MemberIsGot(one, 1);
  }

  function RankKeys(): seq<Text> {
    [Of("candidates"), Of("instance"), Of("mode"), Of("operation"), Of("options"), Of("presented"), Of("question"),
     Of("task"), Of("values")]
  }

  lemma RankKeysDiffer()
    ensures Distinct(RankKeys()) && Distinct([Of("id"), Of("item")])
    ensures OperationName(Rank) == Of("rank")
  {
    var ks := RankKeys();
    assert ks[1][0] != ks[6][0] && ks[2][0] != ks[7][0] && ks[3][0] != ks[5][0];
  }

  lemma OnlyChoice(tasks: seq<Task>, i: nat, doc: Json, choice: Choice)
    requires i < |tasks| && FirstNamed(tasks, tasks[i].task, i)
    requires AsText(Get(doc, Of("task"))) == Some(tasks[i].task)
    requires Differs(tasks[i].operation, tasks[i].question, tasks[i].options, doc).None?
    ensures Chooses(tasks, doc, choice) <==> choice == Chosen(i)
  {
    hide Differs;
    if choice.Chosen? && FirstNamed(tasks, tasks[i].task, choice.index) {
      assert choice.index == i;
    }
  }

  /** The task that a projection was written for is the one that answers it. */
  lemma TaskAnswers(tasks: seq<Task>, i: nat, candidates: Json, instance: Json, values: seq<Member>, choice: Choice)
    requires i < |tasks| && tasks[i].operation != Rank && FirstNamed(tasks, tasks[i].task, i)
    ensures Chooses(tasks, Envelope(tasks[i], candidates, instance, values), choice) <==> choice == Chosen(i)
  {
    EnvelopeHolds(tasks[i], candidates, instance, values);
    hide Get;
    OnlyChoice(tasks, i, Envelope(tasks[i], candidates, instance, values), choice);
  }

  lemma OneCandidate(t: Task, id: Str, item: Json, values: seq<Member>)
    requires id != [] && (item.JNull? || item.JObject?)
    ensures var doc := RankEnvelope(t, id, item, values); IsPointwise(doc) && Candidate(doc) == Some(id)
  {
    RankEnvelopeHolds(t, id, item, values);
    hide Get, Of, RankEnvelope;
    var one := JObject([Member(Of("id"), JString(id)), Member(Of("item"), item)]);
    assert Presented(RankEnvelope(t, id, item, values)) == Some(one);
  }

  lemma RankTaskAnswers(tasks: seq<Task>, i: nat, id: Str, item: Json, values: seq<Member>, choice: Choice)
    requires i < |tasks| && tasks[i].operation == Rank && FirstNamed(tasks, tasks[i].task, i)
    requires id != [] && (item.JNull? || item.JObject?)
    ensures var doc := RankEnvelope(tasks[i], id, item, values);
      (Chooses(tasks, doc, choice) <==> choice == Chosen(i)) && Candidate(doc) == Some(id)
  {
    RankEnvelopeHolds(tasks[i], id, item, values);
    OneCandidate(tasks[i], id, item, values);
    hide Get, Of, RankEnvelope, IsPointwise, Candidate;
    OnlyChoice(tasks, i, RankEnvelope(tasks[i], id, item, values), choice);
  }

  // ----------------------------------------------------------------- what is read

  lemma {:induction false} AsciiEncodes(s: Text)
    requires forall i | 0 <= i < |s| :: 0 <= s[i] < 0x80
    ensures IsText(s) && Encode(s) == s
  {
    if s != [] {
      AsciiEncodes(s[1..]);
      assert s == [s[0]] + s[1..];
    }
  }

  lemma PrintIsAscii(u: int)
    requires Decimal.Fits(u)
    ensures var s: Text := DecimalText.Print(u); IsText(s) && Encode(s) == DecimalText.Print(u)
  {
    var n := DecimalText.PrintedNumber(u);
    DecimalText.PrintedMagnitude(u);
    LayoutIsAscii(n);
    AsciiEncodes(DecimalText.Print(u));
  }

  lemma LayoutIsAscii(n: Number)
    requires DecimalText.IsDecimal(n)
    ensures forall i | 0 <= i < |SpellNumber(n)| :: 0 <= SpellNumber(n)[i] < 0x80
  {
    hide DecimalText.IsDecimal, SpellNumber, SpellFrac;
    DecimalText.Layout(n);
  }

  /** A scalar that the host writes is read back as it was. */
  lemma RenderedIsRead(v: FieldValue, ty: FieldType)
    requires HasType(v, ty) && (v.VDecimal? ==> Decimal.Fits(v.units))
    ensures AsValue(Rendered(v), ty) == Some(v)
  {
    if v.VDecimal? {
      var s: Text := DecimalText.Print(v.units);
      PrintIsAscii(v.units);
      DecimalText.PrintReads(v.units);
      hide DecimalText.Print, DecimalText.Reads;
      assert DecimalOf(s).Some?;
      DecimalText.ReadsUnique(Encode(s), DecimalText.Ok(v.units), DecimalText.Ok(DecimalOf(s).value));
    }
  }

  /** Where the value that a reference leads to was written: in a ranking, the member of a `bind:`
      is one of the item that is presented. */
  predicate WrittenFor(op: Operation, key: Text, member: Option<Text>, doc: Json, v: Json) {
    var at := Source(op, key, doc);
    match member
    case None => at == Some(v)
    case Some(m) => at.Some? && at.value.JObject? && Get(at.value, m) == Some(v)
  }

  /** A field reads what was written for its reference. */
  lemma FieldReads(op: Operation, f: Field, key: Text, member: Option<Text>, doc: Json, v: FieldValue)
    requires Refers(f.reference, key, member) && WrittenFor(op, key, member, doc, Rendered(v))
    requires HasType(v, f.ty) && (v.VDecimal? ==> Decimal.Fits(v.units))
    ensures ReadField(op, f, doc) == Value(v)
  {
    ParseRefReads(f.reference, key, member);
    RenderedIsRead(v, f.ty);
    hide Refers, ParseRef, AsValue, Source, Get, HasType;
  }

  /** Each field is written for, as `env` has it. */
  ghost predicate Supplies(op: Operation, fields: seq<Field>, doc: Json, env: Env) {
    forall f | f in fields ::
      && f.name in env && HasType(env[f.name], f.ty) && (env[f.name].VDecimal? ==> Decimal.Fits(env[f.name].units))
      && exists key, member :: Refers(f.reference, key, member) && WrittenFor(op, key, member, doc, Rendered(env[f.name]))
  }

  /** Where every field is written for, the fields are bound to what was written. */
  lemma {:induction false} FieldsRead(op: Operation, fields: seq<Field>, n: nat, doc: Json, env: Env)
    requires n <= |fields| && Supplies(op, fields, doc, env)
    ensures Bind(op, fields, n, doc) == Bound(map x | x in env && exists k | 0 <= k < n :: fields[k].name == x :: env[x])
  {
    hide Refers, WrittenFor, ReadField, HasType, Rendered;
    if n > 0 {
      FieldsRead(op, fields, n - 1, doc, env);
      var f := fields[n - 1];
      assert f in fields;
      var key, member :| Refers(f.reference, key, member) && WrittenFor(op, key, member, doc, Rendered(env[f.name]));
      FieldReads(op, f, key, member, doc, env[f.name]);
    }
  }

  /** A value written under a reference is where the reference leads. */
  lemma ValueIsSource(t: Task, candidates: Json, instance: Json, values: seq<Member>, i: nat)
    requires i < |values| && Distinct(KeysOf(values)) && t.operation != Rank
    ensures Source(t.operation, values[i].key, Envelope(t, candidates, instance, values)) == Some(values[i].value)
  {
    EnvelopeHolds(t, candidates, instance, values);
    MemberIsGot(values, i);
  }

  lemma ItemIsSource(t: Task, id: Str, item: Json, values: seq<Member>, name: Text)
    requires t.operation == Rank
    ensures Source(Rank, BIND + name, RankEnvelope(t, id, item, values)) == Some(item)
  {
    RankEnvelopeHolds(t, id, item, values);
    hide Get;
  }

  // ------------------------------------------------------------------- numbers

  /** An integer field counts as the decimal that its text spells. */
  lemma IntegerIsDecimal(i: int)
    requires FitsI64(i)
    ensures DecimalText.Reads(Encode(PrintInt(i)), DecimalText.Ok(M.Number(VInteger(i)).value))
  {
    hide Encode, Digits.OfNat, Digits.Value, ValidNumber;
    var m: nat := if i < 0 then -i else i;
    var n := NumberOf(i);
    NumberOfIsValid(i);
    Digits.ValueOfNat(m);
    AsciiEncodes(PrintInt(i));
    NoFraction(n);
    assert SpellNumber(n) == PrintInt(i);
    assert DecimalText.Spells(n, Encode(PrintInt(i)));
  }

  lemma NoFraction(n: Number)
    requires DecimalText.IsDecimal(n) && n.frac.None?
    ensures DecimalText.Magnitude(n) == Digits.Value(n.whole) * Decimal.ONE
  {
    DecimalText.NoFrac(n);
  }

  /** `a` is `d` more than `u`. */
  predicate Exceeds(a: int, u: int, d: nat) { a == u + d }

  /** A threshold: at it or above, a number is the threshold plus something not negative. */
  lemma Thresholds(f: Str, u: int, env: Env)
    requires f in env && M.Number(env[f]).Some?
    ensures Holds(Compare(f, Ge, u), env) <==> exists d :: Exceeds(M.Number(env[f]).value, u, d)
    ensures Holds(Compare(f, Gt, u), env) <==> Holds(Compare(f, Ge, u), env) && M.Number(env[f]).value != u
    ensures Holds(Compare(f, Lt, u), env) <==> !Holds(Compare(f, Ge, u), env)
    ensures Holds(Compare(f, Le, u), env) <==> !Holds(Compare(f, Gt, u), env)
  {
    var a := M.Number(env[f]).value;
    if a >= u {
      assert Exceeds(a, u, a - u);
    }
  }
}
