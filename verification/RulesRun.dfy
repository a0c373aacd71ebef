/** Evaluating a projection with a compiled program gives what the program means
    (backends/rustev-backend-rules/src/eval.rs:76-200). */
module RulesRun {
  import opened Wrappers
  import opened JsonGrammar
  import opened JsonText
  import opened Canonical
  import opened P = RulesProgram
  import opened RulesChecked
  import opened RulesMeaning
  import opened RulesEval
  import RulesCheck

  /** The texts among the items, in order. */
  function TextsIn(items: seq<Json>): (r: seq<Text>)
    ensures |r| <= |items|
  {
    if items == [] then []
    else if items[0].JString? then [items[0].s] + TextsIn(items[1..])
    else TextsIn(items[1..])
  }

  /** Where no item is left out, the items are the texts. */
  lemma {:induction false} AllAreTexts(items: seq<Json>, options: seq<Str>)
    ensures TextsIn(items) == options && |items| == |options| <==> JArray(items) == Texts(options)
  {
    if TextsIn(items) == options && |items| == |options| && items != [] {
      assert items[0].JString?;
      assert options[0] == items[0].s;
      assert TextsIn(items[1..]) == options[1..];
      AllAreTexts(items[1..], options[1..]);
      var rest := Texts(options[1..]).items;
      assert forall i | 1 <= i < |items| :: items[i] == items[1..][i - 1] == rest[i - 1] == JString(options[i]);
      assert items == Texts(options).items;
    }
    if JArray(items) == Texts(options) && items != [] {
      assert items[0] == Texts(options).items[0] == JString(options[0]);
      var rest := options[1..];
      assert forall i | 0 <= i < |rest| :: items[1..][i] == Texts(options).items[i + 1] == JString(rest[i]);
      assert items[1..] == Texts(rest).items;
      AllAreTexts(items[1..], rest);
      assert options == [options[0]] + rest;
    }
  }

  /** Compares the options' texts, and then their number with that of all items, since what is
      no text was left out. */
  method SameOptions(options: seq<Str>, doc: Json) returns (same: bool)
    ensures same <==> Get(doc, Of("options")) == Some(Texts(options))
  {
    var given := Get(doc, Of("options"));
    if given.None? || !given.value.JArray? {
      return false;
    }
    var items := given.value.items;
    var texts: seq<Text> := [];
    for i := 0 to |items|
      invariant TextsIn(items) == texts + TextsIn(items[i..])
    {
      assert items[i..][0] == items[i] && items[i..][1..] == items[i + 1..];
      if items[i].JString? {
        texts := texts + [items[i].s];
      }
    }
    AllAreTexts(items, options);
    return texts == options && |items| == |options|;
  }

  /** Whether a projection that names a task is that task's. */
  method Compare(c: CTask, doc: Json) returns (r: Option<Reason>)
    ensures r == Differs(c.operation, c.question, c.options, doc)
  {
    if Get(doc, Of("operation")) != Some(JString(OperationName(c.operation))) {
      return Some(OperationDiffers);
    }
    if AsText(Get(doc, Of("question"))) != Some(c.question) {
      return Some(QuestionDiffers);
    }
    if c.operation == Rank {
      return if IsPointwise(doc) then None else Some(NotOneCandidate);
    }
    var same := SameOptions(c.options, doc);
    return if same then None else Some(OptionsDiffer);
  }

  /** The task that the projection is for. */
  method Choose(tasks: seq<CTask>, doc: Json, ghost ts: seq<Task>) returns (choice: Choice)
    requires TasksOf(ts, tasks)
    ensures Chooses(ts, doc, choice)
    ensures choice.Chosen? ==> choice.index < |tasks|
  {
    hide Differs, FieldsOf, BaseOf, RulesOf;
    var name := AsText(Get(doc, Of("task")));
    if name.None? {
      return Refused(NoTask);
    }
    for i := 0 to |tasks|
      invariant forall k | 0 <= k < i :: ts[k].task != name.value
    {
      assert TaskOf(ts[i], tasks[i]);
      if tasks[i].name == name.value {
        assert FirstNamed(ts, name.value, i);
        var differs := Compare(tasks[i], doc);
        return if differs.Some? then Refused(differs.value) else Chosen(i);
      }
    }
    return Refused(UnknownTask(name.value));
  }

  /** The base as logits. */
  lemma Started(t: Task, base: seq<int>) returns (m: Logits)
    requires BaseOf(t.options, t.base, base) && Distinct(t.options)
    ensures IsStart(t, m) && Named(t.options, base, m)
  {
    m := map o | o in t.options :: base[IndexOfOption(t.options, o)];
    forall k | 0 <= k < |t.options| ensures m[t.options[k]] == base[k] {
      assert t.options[k] in t.options;
    }
    forall o | o in t.options ensures IsBase(t.base, o, m[o]) {
      var k := IndexOfOption(t.options, o);
      assert m[o] == base[k];
      if exists i | 0 <= i < |t.base| :: t.base[i].option == o {
        var i :| 0 <= i < |t.base| && t.base[i].option == o;
        assert t.base[i] == Constant(o, m[o]);
      }
    }
  }

  ghost function IndexOfOption(options: seq<Str>, o: Str): (k: nat)
    requires o in options
    ensures k < |options| && options[k] == o
  {
    var k :| 0 <= k < |options| && options[k] == o;
    k
  }

  predicate TaskReady(t: Task) {
    && Distinct(t.options)
    && (t.operation == Rank ==> t.options == [Of("score")])
    && forall i, j | 0 <= i < j < |t.fields| :: t.fields[i].name != t.fields[j].name
  }

  method SettleTask(c: CTask, doc: Json, logits: array<int>, applied: bool, ghost t: Task, ghost m: Logits)
    returns (e: Evaluated)
    requires TaskOf(t, c) && TaskReady(t) && Named(t.options, logits[..], m)
    ensures e == Settle(t, doc, m, applied)
  {
    if !applied && c.onNoMatch == Fail {
      return Failed(NoRuleApplied);
    }
    if c.operation == Rank && Candidate(doc).Some? {
      assert m[t.options[0]] == logits[0];
      return Scores(map[Candidate(doc).value := logits[0]]);
    }
    ghost var s := logits[..];
    var answer: Logits := map[];
    for k := 0 to |c.options|
      invariant forall o | o in answer :: o in m && answer[o] == m[o]
      invariant forall i | 0 <= i < k :: c.options[i] in answer
    {
      answer := answer[c.options[k] := logits[k]];
    }
    assert answer == m;
    return Answer(answer);
  }

  method RunTask(c: CTask, doc: Json, cancelled: Point -> bool, ghost t: Task) returns (e: Evaluated)
    requires TaskOf(t, c) && TaskReady(t) && IsJson(doc)
    ensures TaskMeans(t, doc, cancelled, e)
  {
    var values, reason := ReadFields(c.operation, c.fields, doc, t.fields);
    if values.None? {
      return Failed(reason);
    }
    if cancelled(AfterFields) {
      return Stopped(AfterFields);
    }
    ghost var env := Bind(t.operation, t.fields, |t.fields|, doc).env;
    ghost var start := Started(t, c.base);
    var logits := new int[|c.base|](i requires 0 <= i < |c.base| => c.base[i]);
    assert logits[..] == c.base;
    e := RunFrom(c, doc, cancelled, values.value, logits, t, env, start);
  }

  /** The loop over the rules. */
  method RunFrom(c: CTask, doc: Json, cancelled: Point -> bool, values: seq<CValue>, logits: array<int>,
                 ghost t: Task, ghost env: Env, ghost start: Logits)
    returns (e: Evaluated)
    requires TaskOf(t, c) && TaskReady(t) && EnvOf(t.fields, values, env) && Named(t.options, logits[..], start)
    modifies logits
    ensures e == RunRules(t, 0, doc, env, start, false, cancelled)
  {
    hide Named, EnvOf, Settle, FieldsOf, BaseOf, Apply, Holds, HoldsChecked;
    var applied := false;
    ghost var m := start;
    for i := 0 to |c.rules|
      invariant Named(t.options, logits[..], m)
      invariant RunRules(t, 0, doc, env, start, false, cancelled) == RunRules(t, i, doc, env, m, applied, cancelled)
    {
      var rule := c.rules[i];
      ghost var r := t.rules[i];
      assert RuleOf(t.fields, t.options, r, rule);
      if cancelled(BeforeRule(i)) {
        return Stopped(BeforeRule(i));
      }
      HoldsSame(t.fields, r.cond, rule.cond, values, env);
      if HoldsChecked(rule.cond, values) {
        applied := true;
        var fault := ApplyAll(rule.contributions, values, logits, c.options, t.fields, r.contributions, env, m);
        if fault.Some? {
          return Failed(match fault.value case OverIn(o) => Overflow(rule.name, o) case NoKey(k) => NoEntry(rule.name, k));
        }
        m := Apply(r.contributions, |r.contributions|, env, m).logits;
        if rule.stop {
          e := SettleTask(c, doc, logits, true, t, m);
          return;
        }
      }
    }
    e := SettleTask(c, doc, logits, applied, t, m);
  }

  /** Evaluation of a compiled program means what the program means: the same logits, the same
      failure, the same point of cancellation. */
  method Evaluate(tasks: seq<CTask>, maxProjectionBytes: nat, size: nat, doc: Option<Json>, cancelled: Point -> bool,
                  ghost p: Program)
    returns (e: Evaluated)
    requires ProgramFits(p) && TasksOf(p.tasks, tasks) && maxProjectionBytes == p.maxProjectionBytes
    requires doc.Some? ==> IsJson(doc.value)
    ensures Means(p, size, doc, cancelled, e)
  {
    hide TaskFits, TaskOf, TaskMeans, Chooses;
    if cancelled(BeforeParse) {
      return Stopped(BeforeParse);
    }
    if size > maxProjectionBytes {
      return Failed(TooLong);
    }
    if doc.None? {
      return Failed(BadProjection);
    }
    var choice := Choose(tasks, doc.value, p.tasks);
    match choice
    case Refused(reason) =>
      assert ChoiceMeans(p, doc.value, cancelled, choice, Failed(reason));
      return Failed(reason);
    case Chosen(i) =>
      FitsReady(p.tasks[i]);
      e := RunTask(tasks[i], doc.value, cancelled, p.tasks[i]);
      assert ChoiceMeans(p, doc.value, cancelled, choice, e);
  }

  lemma FitsReady(t: Task)
    requires TaskFits(t)
    ensures TaskReady(t)
  {}

  /** Compiling preserves meaning: a program that the compiler accepts, once compiled, answers
      every projection with what the program means. */
  method CompileAndEvaluate(p: Program, size: nat, doc: Option<Json>, cancelled: Point -> bool) returns (e: Option<Evaluated>)
    requires doc.Some? ==> IsJson(doc.value)
    ensures e.Some? <==> ProgramFits(p)
    ensures e.Some? ==> Means(p, size, doc, cancelled, e.value)
  {
    var tasks := RulesCheck.Check(p);
    if tasks.Err? {
      return None;
    }
    var x := Evaluate(tasks.value, p.maxProjectionBytes, size, doc, cancelled, p);
    return Some(x);
  }

  // --------------------------------------------------------------- one meaning

  lemma OneChoice(tasks: seq<Task>, doc: Json, a: Choice, b: Choice)
    requires Chooses(tasks, doc, a) && Chooses(tasks, doc, b)
    ensures a == b
  {
    hide Differs;
    forall name: Text, i: nat, j: nat | FirstNamed(tasks, name, i) && FirstNamed(tasks, name, j) ensures i == j {}
  }

  lemma OneBase(base: Constants, o: Str, u: int, v: int)
    requires IsBase(base, o, u) && IsBase(base, o, v)
    ensures u == v
  {
    hide Ordered, Encode;
    if exists i | 0 <= i < |base| :: base[i].option == o {
      var i :| 0 <= i < |base| && base[i] == Constant(o, u);
      var j :| 0 <= j < |base| && base[j] == Constant(o, v);
      RulesCheck.DistinctConstants(base, if i < j then j else i);
    }
  }

  lemma OneStart(t: Task, m: Logits, n: Logits)
    requires IsStart(t, m) && IsStart(t, n)
    ensures m == n
  {
    hide IsBase;
    forall o | o in t.options ensures m[o] == n[o] {
      OneBase(t.base, o, m[o], n[o]);
    }
  }

  lemma OneTaskMeaning(t: Task, doc: Json, cancelled: Point -> bool, a: Evaluated, b: Evaluated)
    requires TaskMeans(t, doc, cancelled, a) && TaskMeans(t, doc, cancelled, b)
    ensures a == b
  {
    hide IsStart, RunRules, Bind;
    var bound := Bind(t.operation, t.fields, |t.fields|, doc);
    if bound.Bound? && !cancelled(AfterFields) {
      var m :| IsStart(t, m) && a == RunRules(t, 0, doc, bound.env, m, false, cancelled);
      var n :| IsStart(t, n) && b == RunRules(t, 0, doc, bound.env, n, false, cancelled);
      OneStart(t, m, n);
    }
  }

  /** A program means one thing. */
  lemma OneMeaning(p: Program, size: nat, doc: Option<Json>, cancelled: Point -> bool, a: Evaluated, b: Evaluated)
    requires Means(p, size, doc, cancelled, a) && Means(p, size, doc, cancelled, b)
    ensures a == b
  {
    hide TaskMeans, Differs;
    if !cancelled(BeforeParse) && size <= p.maxProjectionBytes && doc.Some? {
      var c :| ChoiceMeans(p, doc.value, cancelled, c, a);
      var d :| ChoiceMeans(p, doc.value, cancelled, d, b);
      OneChoice(p.tasks, doc.value, c, d);
      if c.Chosen? {
        OneTaskMeaning(p.tasks[c.index], doc.value, cancelled, a, b);
      }
    }
  }
}
