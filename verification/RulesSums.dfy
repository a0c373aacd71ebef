/** What the answer of a rules program adds up to, and when there is one: the base of each option and the amounts of the
    rules that apply, as sums of integers (backends/rustev-backend-rules/src/eval.rs:105-150, 281-328). */
module RulesSums {
  import opened Wrappers
  import opened Canonical
  import JsonGrammar
  import opened RulesProgram
  import opened RulesMeaning
  import Decimal

  /** A constant times a number, rounded to the nearest unit, half to even. */
  ghost function Product(units: int, x: int): (q: int)
    ensures Decimal.Rounded(units * x, Decimal.ONE, Decimal.HalfEven, q)
  {
    HasProduct(units, x);
    var q :| Decimal.Rounded(units * x, Decimal.ONE, Decimal.HalfEven, q);
    q
  }

  lemma HasProduct(units: int, x: int)
    ensures exists q :: Decimal.Rounded(units * x, Decimal.ONE, Decimal.HalfEven, q)
  {
    var q := Decimal.RoundedExists(units * x, Decimal.ONE, Decimal.HalfEven);
  }

  /** What the first `n` constants have for an option. */
  function SumOf(cs: seq<Constant>, n: nat, o: Str): int
    requires n <= |cs|
  {
    if n == 0 then 0 else SumOf(cs, n - 1, o) + if cs[n - 1].option == o then cs[n - 1].units else 0
  }

  ghost function SumOfProducts(cs: seq<Constant>, n: nat, x: int, o: Str): int
    requires n <= |cs|
  {
    if n == 0 then 0 else SumOfProducts(cs, n - 1, x, o) + if cs[n - 1].option == o then Product(cs[n - 1].units, x) else 0
  }

  /** What a contribution has for an option. */
  ghost function Amount(c: Contribution, env: Env, o: Str): int {
    match c
    case Add(cs) => SumOf(cs, |cs|, o)
    case Linear(f, cs) =>
      if f in env && Number(env[f]).Some? then SumOfProducts(cs, |cs|, Number(env[f]).value, o) else 0
    case Lookup(f, entries, _) =>
      if f in env && CanonicalText(env[f]).Some? && HasEntry(entries, CanonicalText(env[f]).value) then
        var constants := entries[EntryOf(entries, CanonicalText(env[f]).value)].add;
        SumOf(constants, |constants|, o)
      else 0
  }

  ghost function Amounts(cs: seq<Contribution>, n: nat, env: Env, o: Str): int
    requires n <= |cs|
  {
    if n == 0 then 0 else Amounts(cs, n - 1, env, o) + Amount(cs[n - 1], env, o)
  }

  /** The `i`th rule holds, and no rule before it that holds stops. */
  predicate Applies(t: Task, env: Env, i: nat)
    requires i < |t.rules|
  {
    Holds(t.rules[i].cond, env) && Reached(t, env, i)
  }

  predicate Reached(t: Task, env: Env, i: nat)
    requires i <= |t.rules|
  {
    forall k | 0 <= k < i :: !(Holds(t.rules[k].cond, env) && t.rules[k].stop)
  }

  /** What the rules from the `i`th on that apply have for an option. */
  ghost function Total(t: Task, env: Env, i: nat, o: Str): int
    decreases |t.rules| - i
  {
    if i >= |t.rules| then 0
    else
      var r := t.rules[i];
      (if Applies(t, env, i) then Amounts(r.contributions, |r.contributions|, env, o) else 0) + Total(t, env, i + 1, o)
  }

  // --------------------------------------------------------------- one effect

  /** The sums are of the same options, and that of `o` has gained the amount. */
  predicate Gains(m: Logits, n: Logits, o: Str, amount: int) {
    n.Keys == m.Keys && (o in m ==> n[o] == m[o] + amount)
  }

  lemma OneGains(m: Logits, p: Str, units: int, o: Str)
    ensures AddOne(m, p, units).Sum? ==> Gains(m, AddOne(m, p, units).logits, o, if p == o then units else 0)
  {
    if p in m {
      Decimal.AddIsExact(m[p], units);
    }
  }

  lemma {:induction false} ConstantsGain(cs: seq<Constant>, n: nat, m: Logits, o: Str)
    requires n <= |cs|
    ensures AddConstants(cs, n, m).Sum? ==> Gains(m, AddConstants(cs, n, m).logits, o, SumOf(cs, n, o))
  {
    hide AddOne;
    if n > 0 {
      ConstantsGain(cs, n - 1, m, o);
      if AddConstants(cs, n - 1, m).Sum? {
        OneGains(AddConstants(cs, n - 1, m).logits, cs[n - 1].option, cs[n - 1].units, o);
      }
    }
  }

  lemma ProductIs(units: int, x: int)
    ensures var r := Decimal.CheckedMul(units, x, Decimal.HalfEven);
      r.Ok? ==> r.units == Product(units, x)
  {
    Decimal.MulIsExact(units, x, Decimal.HalfEven);
    var r := Decimal.CheckedMul(units, x, Decimal.HalfEven);
    if r.Ok? {
      Decimal.RoundedUnique(units * x, Decimal.ONE, Decimal.HalfEven, r.units, Product(units, x));
    }
  }

  lemma {:induction false} ProductsGain(cs: seq<Constant>, n: nat, x: int, m: Logits, o: Str)
    requires n <= |cs|
    ensures AddProducts(cs, n, x, m).Sum? ==> Gains(m, AddProducts(cs, n, x, m).logits, o, SumOfProducts(cs, n, x, o))
  {
    hide Decimal.CheckedMul, Decimal.Rounded, AddOne;
    if n > 0 {
      ProductsGain(cs, n - 1, x, m, o);
      var c := cs[n - 1];
      ProductIs(c.units, x);
      if AddProducts(cs, n - 1, x, m).Sum? {
        OneGains(AddProducts(cs, n - 1, x, m).logits, c.option, Product(c.units, x), o);
      }
    }
  }

  lemma ContributionGains(c: Contribution, env: Env, m: Logits, o: Str)
    ensures ApplyOne(c, env, m).Sum? ==> Gains(m, ApplyOne(c, env, m).logits, o, Amount(c, env, o))
  {
    match c
    case Add(cs) => ConstantsGain(cs, |cs|, m, o);
    case Linear(f, cs) =>
      if f in env && Number(env[f]).Some? {
        ProductsGain(cs, |cs|, Number(env[f]).value, m, o);
      }
    case Lookup(f, entries, _) =>
      if f in env && CanonicalText(env[f]).Some? && HasEntry(entries, CanonicalText(env[f]).value) {
        var constants := entries[EntryOf(entries, CanonicalText(env[f]).value)].add;
        ConstantsGain(constants, |constants|, m, o);
      }
  }

  lemma {:induction false} ContributionsGain(cs: seq<Contribution>, n: nat, env: Env, m: Logits, o: Str)
    requires n <= |cs|
    ensures Apply(cs, n, env, m).Sum? ==> Gains(m, Apply(cs, n, env, m).logits, o, Amounts(cs, n, env, o))
  {
    hide ApplyOne, Amount;
    if n > 0 {
      ContributionsGain(cs, n - 1, env, m, o);
      if Apply(cs, n - 1, env, m).Sum? {
        ContributionGains(cs[n - 1], env, Apply(cs, n - 1, env, m).logits, o);
      }
    }
  }

  // ----------------------------------------------------------------- the rules

  lemma {:induction false} NothingAfterStop(t: Task, env: Env, i: nat, o: Str)
    requires i <= |t.rules| && !Reached(t, env, i)
    ensures Total(t, env, i, o) == 0
    decreases |t.rules| - i
  {
    hide Holds, Amounts;
    if i < |t.rules| {
      assert !Reached(t, env, i + 1);
      NothingAfterStop(t, env, i + 1, o);
    }
  }

  /** The answer, or the score of the candidate, is what the sum of `o` comes to. */
  ghost predicate AddsUp(doc: Json, m: Logits, o: Str, amount: int, e: Evaluated) {
    match e
    case Answer(n) => Gains(m, n, o, amount)
    case Scores(scores) =>
      && Candidate(doc).Some?
      && (o == Of("score") ==> scores == map[Candidate(doc).value := if o in m then m[o] + amount else 0])
    case _ => true
  }

  lemma SettledAddsUp(t: Task, doc: Json, m: Logits, n: Logits, o: Str, amount: int, applied: bool)
    requires Gains(m, n, o, amount)
    ensures AddsUp(doc, m, o, amount, Settle(t, doc, n, applied))
  {
    hide Of, Candidate;
  }

  /** Rules that answer have added what those of them that apply have. */
  lemma {:induction false} RulesAddUp(t: Task, i: nat, doc: Json, env: Env, m: Logits, applied: bool, cancelled: Point -> bool, o: Str)
    requires i <= |t.rules| && Reached(t, env, i)
    ensures AddsUp(doc, m, o, Total(t, env, i, o), RunRules(t, i, doc, env, m, applied, cancelled))
    decreases |t.rules| - i
  {
    hide Holds, Apply, Of, Candidate, Amounts, Settle;
    if i == |t.rules| {
      SettledAddsUp(t, doc, m, m, o, 0, applied);
    } else if !cancelled(BeforeRule(i)) {
      var r := t.rules[i];
      if !Holds(r.cond, env) {
        RulesAddUp(t, i + 1, doc, env, m, applied, cancelled, o);
      } else {
        ContributionsGain(r.contributions, |r.contributions|, env, m, o);
        var effect := Apply(r.contributions, |r.contributions|, env, m);
        if effect.Sum? && r.stop {
          assert !Reached(t, env, i + 1);
          NothingAfterStop(t, env, i + 1, o);
          SettledAddsUp(t, doc, m, effect.logits, o, Total(t, env, i, o), true);
        } else if effect.Sum? {
          RulesAddUp(t, i + 1, doc, env, effect.logits, true, cancelled, o);
        }
      }
    }
  }

  /** A program that answers gives each option of the chosen task its base and what the rules that
      apply have for it, as a sum of integers. */
  lemma AnswersAddUp(p: Program, size: nat, doc: Json, cancelled: Point -> bool, e: Evaluated)
    requires Means(p, size, Some(doc), cancelled, e) && e.Answer?
    ensures exists i: nat, env :: i < |p.tasks| && Chooses(p.tasks, doc, Chosen(i))
                             && Bind(p.tasks[i].operation, p.tasks[i].fields, |p.tasks[i].fields|, doc) == Bound(env)
                             && IsSum(p.tasks[i], env, e.logits)
  {
    hide Differs, RunRules, IsBase;
    var choice :| ChoiceMeans(p, doc, cancelled, choice, e);
    var i := choice.index;
    var t := p.tasks[i];
    var env := Bind(t.operation, t.fields, |t.fields|, doc).env;
    var m :| IsStart(t, m) && e == RunRules(t, 0, doc, env, m, false, cancelled);
    forall o: Str | o in t.options ensures o in e.logits && IsBase(t.base, o, e.logits[o] - Total(t, env, 0, o)) {
      RulesAddUp(t, 0, doc, env, m, false, cancelled, o);
    }
    RulesAddUp(t, 0, doc, env, m, false, cancelled, []);
    assert IsSum(t, env, e.logits);
  }

  /** Each option has its base and the amounts of the rules that apply. */
  ghost predicate IsSum(t: Task, env: Env, logits: Logits) {
    && logits.Keys == (set o | o in t.options)
    && forall o | o in t.options :: IsBase(t.base, o, logits[o] - Total(t, env, 0, o))
  }

  /** The score that a ranked candidate gets is that of the one option. */
  lemma ScoresAddUp(p: Program, size: nat, doc: Json, cancelled: Point -> bool, e: Evaluated)
    requires ProgramFits(p) && Means(p, size, Some(doc), cancelled, e) && e.Scores?
    ensures exists i: nat :: i < |p.tasks| && Chooses(p.tasks, doc, Chosen(i)) && IsScored(p.tasks[i], doc, e.scores)
  {
    hide Differs, TaskMeans, IsScored;
    var choice :| ChoiceMeans(p, doc, cancelled, choice, e);
    var t := p.tasks[choice.index];
    assert TaskFits(t);
    TaskScores(t, doc, cancelled, e);
  }

  ghost predicate IsScored(t: Task, doc: Json, scores: map<JsonGrammar.Text, int>) {
    exists env, u ::
      && Bind(t.operation, t.fields, |t.fields|, doc) == Bound(env)
      && IsScore(t, env, u) && Candidate(doc).Some? && scores == map[Candidate(doc).value := u]
  }

  lemma TaskScores(t: Task, doc: Json, cancelled: Point -> bool, e: Evaluated)
    requires TaskMeans(t, doc, cancelled, e) && e.Scores? && (t.operation == Rank ==> t.options == [Of("score")])
    ensures IsScored(t, doc, e.scores)
  {
    hide Settle, IsBase, Of, Candidate, RunRules, Bind, Total;
    var env := Bind(t.operation, t.fields, |t.fields|, doc).env;
    var m :| IsStart(t, m) && e == RunRules(t, 0, doc, env, m, false, cancelled);
    var o := Of("score");
    ScoresAreRanks(t, 0, doc, env, m, false, cancelled);
    assert o in t.options;
    RulesAddUp(t, 0, doc, env, m, false, cancelled, o);
    assert IsScore(t, env, m[o] + Total(t, env, 0, o));
  }

  ghost predicate IsScore(t: Task, env: Env, u: int) {
    t.operation == Rank && IsBase(t.base, Of("score"), u - Total(t, env, 0, Of("score")))
  }

  lemma {:induction false} ScoresAreRanks(t: Task, i: nat, doc: Json, env: Env, m: Logits, applied: bool, cancelled: Point -> bool)
    ensures RunRules(t, i, doc, env, m, applied, cancelled).Scores? ==> t.operation == Rank
    decreases |t.rules| - i
  {
    hide Holds, Apply, Of, Candidate;
    if i < |t.rules| && !cancelled(BeforeRule(i)) {
      var r := t.rules[i];
      if !Holds(r.cond, env) {
        ScoresAreRanks(t, i + 1, doc, env, m, applied, cancelled);
      } else {
        var effect := Apply(r.contributions, |r.contributions|, env, m);
        if effect.Sum? && !r.stop {
          ScoresAreRanks(t, i + 1, doc, env, effect.logits, true, cancelled);
        }
      }
    }
  }

  // ----------------------------------------------------------------- observation

  /** The signal was not raised where it was looked for before the `n`th rule. */
  ghost predicate Unraised(t: Task, env: Env, cancelled: Point -> bool, i: nat, n: nat)
    requires n <= |t.rules|
  {
    forall k | i <= k < n && Reached(t, env, k) :: !cancelled(BeforeRule(k))
  }

  predicate SomeApplies(t: Task, env: Env, i: nat) {
    exists k | i <= k < |t.rules| :: Applies(t, env, k)
  }

  /** A stop is at the first rule before which the signal was raised; an answer means that it was
      raised before none of the rules reached, and that a rule applied or none has to. */
  ghost predicate Observes(t: Task, env: Env, cancelled: Point -> bool, i: nat, applied: bool, e: Evaluated) {
    match e
    case Stopped(at) =>
      at.BeforeRule? && i <= at.index < |t.rules| && Reached(t, env, at.index) && cancelled(at)
      && Unraised(t, env, cancelled, i, at.index)
    case Failed(NoRuleApplied) =>
      t.onNoMatch == Fail && !applied && !SomeApplies(t, env, i) && Unraised(t, env, cancelled, i, |t.rules|)
    case Failed(_) => true
    case _ => Unraised(t, env, cancelled, i, |t.rules|) && (t.onNoMatch == Fail ==> applied || SomeApplies(t, env, i))
  }

  lemma Settled(t: Task, env: Env, cancelled: Point -> bool, i: nat, doc: Json, m: Logits, applied: bool)
    requires Unraised(t, env, cancelled, i, |t.rules|) && (!applied ==> !SomeApplies(t, env, i))
    ensures Observes(t, env, cancelled, i, applied, Settle(t, doc, m, applied))
  {
    hide Candidate, Of, Unraised, SomeApplies;
  }

  lemma NothingReached(t: Task, env: Env, cancelled: Point -> bool, i: nat)
    requires i <= |t.rules| && !Reached(t, env, i)
    ensures Unraised(t, env, cancelled, i, |t.rules|)
  {
    hide Holds;
    forall k | i <= k < |t.rules| ensures !Reached(t, env, k) {}
  }

  /** What holds from the next rule on holds from this one on. */
  lemma ObservesEarlier(t: Task, env: Env, cancelled: Point -> bool, i: nat, applied: bool, next: bool, e: Evaluated)
    requires i < |t.rules| && Reached(t, env, i) && !cancelled(BeforeRule(i))
    requires Observes(t, env, cancelled, i + 1, next, e)
    requires next == (applied || Applies(t, env, i))
    ensures Observes(t, env, cancelled, i, applied, e)
  {
    hide Holds;
    assert SomeApplies(t, env, i) <==> Applies(t, env, i) || SomeApplies(t, env, i + 1);
  }

  lemma {:induction false} RulesObserve(t: Task, i: nat, doc: Json, env: Env, m: Logits, applied: bool, cancelled: Point -> bool)
    requires i <= |t.rules| && Reached(t, env, i)
    ensures Observes(t, env, cancelled, i, applied, RunRules(t, i, doc, env, m, applied, cancelled))
    decreases |t.rules| - i
  {
    hide Holds, Apply, Settle, Observes;
    if i == |t.rules| {
      Settled(t, env, cancelled, i, doc, m, applied);
    } else if cancelled(BeforeRule(i)) {
      StopsHere(t, env, cancelled, i, applied);
    } else {
      var r := t.rules[i];
      var e := RunRules(t, i, doc, env, m, applied, cancelled);
      if !Holds(r.cond, env) {
        RulesObserve(t, i + 1, doc, env, m, applied, cancelled);
        ObservesEarlier(t, env, cancelled, i, applied, applied, e);
      } else {
        var effect := Apply(r.contributions, |r.contributions|, env, m);
        if !effect.Sum? {
          FailsHere(t, env, cancelled, i, applied, e);
        } else if r.stop {
          NothingReached(t, env, cancelled, i + 1);
          Settled(t, env, cancelled, i + 1, doc, effect.logits, true);
          ObservesEarlier(t, env, cancelled, i, applied, true, e);
        } else {
          RulesObserve(t, i + 1, doc, env, effect.logits, true, cancelled);
          ObservesEarlier(t, env, cancelled, i, applied, true, e);
        }
      }
    }
  }

  lemma StopsHere(t: Task, env: Env, cancelled: Point -> bool, i: nat, applied: bool)
    requires i < |t.rules| && Reached(t, env, i) && cancelled(BeforeRule(i))
    ensures Observes(t, env, cancelled, i, applied, Stopped(BeforeRule(i)))
  {}

  lemma FailsHere(t: Task, env: Env, cancelled: Point -> bool, i: nat, applied: bool, e: Evaluated)
    requires e.Failed? && !e.reason.NoRuleApplied?
    ensures Observes(t, env, cancelled, i, applied, e)
  {}

  /** An evaluation stops at the first point at which its signal is raised, of those before the
      parse, after the fields and before each rule that is reached; and it fails for want of a
      rule exactly when it could and none applied. */
  lemma StopsWhenRaised(p: Program, size: nat, doc: Json, cancelled: Point -> bool, e: Evaluated)
    requires Means(p, size, Some(doc), cancelled, e)
    ensures cancelled(BeforeParse) <==> e == Stopped(BeforeParse)
    ensures e == Stopped(AfterFields) ==> cancelled(AfterFields)
    ensures (e.Stopped? && e.at.BeforeRule?) || e.Answer? || e.Scores? || e == Failed(NoRuleApplied) ==>
              && !cancelled(AfterFields)
              && exists i: nat, env :: i < |p.tasks| && Chooses(p.tasks, doc, Chosen(i))
                   && Bind(p.tasks[i].operation, p.tasks[i].fields, |p.tasks[i].fields|, doc) == Bound(env)
                   && Observes(p.tasks[i], env, cancelled, 0, false, e)
  {
    hide Observes;
    if !cancelled(BeforeParse) && size <= p.maxProjectionBytes {
      var choice :| ChoiceMeans(p, doc, cancelled, choice, e);
      if choice.Chosen? {
        var t := p.tasks[choice.index];
        TaskStops(t, doc, cancelled, e);
      } else {
        RefusedIsNoStop(p.tasks, doc, choice);
      }
    }
  }

  lemma RefusedIsNoStop(tasks: seq<Task>, doc: Json, choice: Choice)
    requires Chooses(tasks, doc, choice) && choice.Refused?
    ensures choice.reason != NoRuleApplied
  {}

  lemma TaskStops(t: Task, doc: Json, cancelled: Point -> bool, e: Evaluated)
    requires TaskMeans(t, doc, cancelled, e)
    ensures e != Stopped(BeforeParse) && (e == Stopped(AfterFields) ==> cancelled(AfterFields))
    ensures (e.Stopped? && e.at.BeforeRule?) || e.Answer? || e.Scores? || e == Failed(NoRuleApplied) ==>
              && !cancelled(AfterFields)
              && exists env :: Bind(t.operation, t.fields, |t.fields|, doc) == Bound(env) && Observes(t, env, cancelled, 0, false, e)
  {
    match Bind(t.operation, t.fields, |t.fields|, doc)
    case Unbound(reason) => UnboundIsNoStop(t.operation, t.fields, |t.fields|, doc);
    case Bound(env) =>
      if !cancelled(AfterFields) {
        var m :| IsStart(t, m) && e == RunRules(t, 0, doc, env, m, false, cancelled);
        RulesObserve(t, 0, doc, env, m, false, cancelled);
      }
  }

  lemma {:induction false} UnboundIsNoStop(op: Operation, fields: seq<Field>, n: nat, doc: Json)
    requires n <= |fields| && Bind(op, fields, n, doc).Unbound?
    ensures Bind(op, fields, n, doc).reason != NoRuleApplied
  {
    hide ParseRef, Source, AsValue, Get;
    if Bind(op, fields, n - 1, doc).Unbound? {
      UnboundIsNoStop(op, fields, n - 1, doc);
    }
  }
}
