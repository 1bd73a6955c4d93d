/** `internal/chain/chain.go`: the runner itself, with its shared visiting set, step counter and
    console, proved against the meaning of a chain. */
module ChainRunner {
  import opened Text
  import opened Model
  import opened Expansion

  const MAX_CONSOLE_LINES: nat := 1024
  const TRUNCATED := "[chain console truncated]"

  datatype Progress = Progress(step: nat, total: nat, alias: string, name: string)

  datatype Result<T> = Ok(value: T) | Err(message: string)

  // ----- the console -----

  /** The console that `all` the traced lines leave: the first 1024, and one marker iff there were more. */
  function Bounded(all: seq<string>): seq<string> {
    if |all| <= MAX_CONSOLE_LINES then all else all[..MAX_CONSOLE_LINES] + [TRUNCATED]
  }

  /** `appendBounded`. */
  method AppendBounded(console: seq<string>, lines: seq<string>, ghost all: seq<string>) returns (out: seq<string>)
    requires console == Bounded(all)
    ensures out == Bounded(all + lines)
  {
    out := console;
    assert all + lines[..0] == all;
    for i := 0 to |lines|
      invariant out == Bounded(all + lines[..i])
    {
      assert all + lines[..i + 1] == (all + lines[..i]) + [lines[i]];
      if |out| >= MAX_CONSOLE_LINES {
        if |out| == MAX_CONSOLE_LINES {
          out := out + [TRUNCATED];
        }
        assert (all + lines)[..MAX_CONSOLE_LINES] == (all + lines[..i])[..MAX_CONSOLE_LINES];
        return;
      }
      out := out + [lines[i]];
    }
    assert lines[..|lines|] == lines;
  }

  function TraceLine(alias: string, v: View): string {
    "→ chain[" + alias + "] " + v.request.httpMethod + " " + v.request.url
  }

  /** What one call adds to the trace: its script lines, then a line for the request that went out. */
  function LinesOf(c: Call): seq<string> {
    c.outcome.lines +
    if c.outcome.view.request.url != "" then [TraceLine(c.step.alias, c.outcome.view)] else []
  }

  /** Every request that went out is named by its alias, method and URL, after its scripts' lines. */
  lemma LinesAre(c: Call)
    ensures var out := c.outcome.view.request;
            LinesOf(c) == c.outcome.lines + if out.url == "" then []
                                            else ["→ chain[" + c.step.alias + "] " + out.httpMethod + " " + out.url]
  {
  }

  function Trace(calls: seq<Call>): seq<string> {
    if calls == [] then [] else Trace(calls[..|calls| - 1]) + LinesOf(calls[|calls| - 1])
  }

  lemma {:induction false} TraceSnoc(calls: seq<Call>, c: Call)
    ensures Trace(calls + [c]) == Trace(calls) + LinesOf(c)
  {
    assert (calls + [c])[..|calls|] == calls;
  }

  /** The progress reports of a list of calls: numbered from 1, all with the same total. */
  function Reports(calls: seq<Call>, total: nat): seq<Progress> {
    seq(|calls|, i requires 0 <= i < |calls| => Progress(i + 1, total, calls[i].step.alias, calls[i].target.name))
  }

  lemma {:induction false} ReportsSnoc(calls: seq<Call>, c: Call, total: nat)
    ensures Reports(calls + [c], total) == Reports(calls, total) + [Progress(|calls| + 1, total, c.step.alias, c.target.name)]
  {
  }

  lemma {:induction false} ConcatAssociative<T>(x: seq<T>, y: seq<T>, z: seq<T>)
    ensures (x + y) + z == x + (y + z)
  {
  }

  // ----- counting ahead -----

  /** An expansion within the caps and without a repeated key. */
  ghost predicate Countable(f: Finder, steps: seq<ChainStep>, es: seq<Exp>, seen: set<string>, depth: nat) {
    && depth < MAX_DEPTH && IsExpansion(f, steps, es) && NoRepeat(es, seen)
    && AtMostDeep(es, MAX_DEPTH - 1 - depth) && Total(es) <= MAX_STEPS
  }

  lemma {:induction false} CountableAt(f: Finder, steps: seq<ChainStep>, es: seq<Exp>, seen: set<string>, depth: nat, i: nat)
    requires Countable(f, steps, es, seen, depth) && i < |steps|
    ensures |es| == |steps| && es[i].step == steps[i] && Target(f, steps[i]) == Some(es[i].target)
    ensures HasRef(steps[i])
    ensures VisitKey(es[i].target, steps[i]) !in seen
    ensures Countable(f, es[i].target.chain, es[i].below, seen + {VisitKey(es[i].target, steps[i])}, depth + 1)
    ensures Size(es, i + 1) == Size(es, i) + Total(es[i].below) + 1 <= Total(es)
  {
    SizeMonotone(es, i + 1);
  }

  lemma {:induction false} SizeMonotone(es: seq<Exp>, n: nat)
    requires n <= |es|
    ensures Size(es, n) <= Total(es)
    decreases |es| - n
  {
    if n < |es| {
      SizeMonotone(es, n + 1);
    }
  }

  /** `countSteps`. The visiting set is shared by the recursion and handed back. Whenever the chain has
      an expansion within the caps, the count is its size. */
  method CountSteps(f: Finder, steps: seq<ChainStep>, visiting: set<string>, depth: nat) returns (total: nat, visiting': set<string>)
    ensures visiting' == visiting
    ensures total <= MAX_STEPS
    ensures forall es :: Countable(f, steps, es, visiting, depth) ==> total == Total(es)
    decreases MAX_DEPTH - depth
  {
    total, visiting' := 0, visiting;
    if depth >= MAX_DEPTH {
      return;
    }
    for i := 0 to |steps|
      invariant visiting' == visiting && total < MAX_STEPS
      invariant forall es :: Countable(f, steps, es, visiting, depth) ==> |es| == |steps| && total == Size(es, i)
    {
      forall es | Countable(f, steps, es, visiting, depth) {
        CountableAt(f, steps, es, visiting, depth, i);
      }
      var step := steps[i];
      if step.request == "" && step.requestID == "" {
        continue; // resolves to nothing, so no expansion has it
      }
      var sub := Target(f, step);
      if sub == None {
        continue;
      }
      var key := VisitKey(sub.value, step);
      if key in visiting' {
        continue;
      }
      var inner;
      inner, visiting' := CountSteps(f, sub.value.chain, visiting' + {key}, depth + 1);
      total := total + inner + 1;
      visiting' := visiting' - {key};
      if total >= MAX_STEPS {
        return MAX_STEPS, visiting';
      }
    }
  }

  // ----- the runner -----

  class Runner {
    const finder: Finder
    const exec: Executor
    const reporting: bool // was a progress callback supplied?
    const total: nat      // what countSteps predicted
    var visiting: set<string>
    var stepCount: nat
    var console: seq<string>
    var progress: seq<Progress> // the callback's invocations
    ghost var calls: seq<Call>  // every ExecuteOnce call so far, the failed one included

    constructor (finder: Finder, exec: Executor, reporting: bool, total: nat, visiting: set<string>)
      ensures this.finder == finder && this.exec == exec && this.reporting == reporting && this.total == total
      ensures this.visiting == visiting && calls == [] && Valid()
    {
      this.finder, this.exec, this.reporting, this.total := finder, exec, reporting, total;
      this.visiting, stepCount, console, progress, calls := visiting, 0, [], [], [];
    }

    /** Holds between any two executions of every run, failed ones included. */
    ghost predicate Valid()
      reads this
    {
      && stepCount == |calls| <= MAX_STEPS
      && (forall c <- calls :: Target(finder, c.step) == Some(c.target))
      && console == Bounded(Trace(calls))
      && progress == if reporting then Reports(calls, total) else []
    }

    /** Console lines of one execution: the script lines, then what went out. */
    method Log(step: ChainStep, o: Outcome, ghost all: seq<string>)
      requires console == Bounded(all)
      modifies this`console
      ensures forall sub, m :: console == Bounded(all + LinesOf(Call(step, sub, m, o)))
    {
      console := AppendBounded(console, o.lines, all);
      if o.view.request.url != "" {
        console := AppendBounded(console, [TraceLine(step.alias, o.view)], all + o.lines);
        assert all + o.lines + [TraceLine(step.alias, o.view)] == all + (o.lines + [TraceLine(step.alias, o.view)]);
      } else {
        assert o.lines + [] == o.lines;
      }
    }

    /** The part of `resolveSteps` that executes one resolved step. */
    method Execute(step: ChainStep, sub: Request, chainMap: map<string, View>) returns (o: Outcome)
      requires Valid() && stepCount < MAX_STEPS && Target(finder, step) == Some(sub)
      modifies this`stepCount, this`console, this`progress, this`calls
      ensures Valid()
      ensures o == exec(old(stepCount), sub, chainMap)
      ensures calls == old(calls) + [Call(step, sub, chainMap, o)]
    {
      hide Target, Trace, Bounded, Reports, LinesOf;
      o := exec(stepCount, sub, chainMap);
      stepCount := stepCount + 1;
      if reporting {
        progress := progress + [Progress(stepCount, total, step.alias, sub.name)];
      }
      Log(step, o, Trace(calls));
      ghost var c := Call(step, sub, chainMap, o);
      TraceSnoc(calls, c);
      ReportsSnoc(calls, c, total);
      calls := calls + [c];
    }

    /** The tests of `resolveSteps` on one step. */
    method Admit(step: ChainStep, taken: map<string, View>) returns (sub: Result<Request>)
      ensures sub.Ok? <==> StepAdmitted(finder, step, taken, visiting)
      ensures sub.Ok? ==> Target(finder, step) == Some(sub.value) && VisitKey(sub.value, step) !in visiting
    {
      var blankAlias := step.alias == "";
      var blankRef := step.request == "" && step.requestID == "";
      if blankAlias && blankRef {
        return Err("a step is missing both alias and request reference");
      }
      if blankAlias {
        return Err("step is missing an alias");
      }
      if blankRef {
        return Err("alias has no request reference");
      }
      if !IsIdentifier(step.alias) {
        return Err("alias is not a valid JS identifier");
      }
      if step.alias in RESERVED {
        return Err("alias is a reserved JavaScript word");
      }
      if step.alias in OBJECT_PROPS {
        return Err("alias collides with a JavaScript object property");
      }
      if step.alias in taken {
        return Err("duplicate alias");
      }
      var target := Target(finder, step);
      if target == None {
        return Err("cannot resolve request");
      }
      if VisitKey(target.value, step) in visiting {
        return Err("cycle detected");
      }
      return Ok(target.value);
    }

    /** One turn of the loop of `resolveSteps`: expand and run the step's own chain, then the step. */
    method RunStep(step: ChainStep, sub: Request, key: string, depth: nat, ghost at: nat)
      returns (r: Result<View>, ghost e: Exp, ghost expanded: bool)
      requires Valid() && depth < MAX_DEPTH && at == stepCount
      requires Target(finder, step) == Some(sub) && key == VisitKey(sub, step) && key !in visiting
      modifies this
      ensures Valid()
      ensures old(calls) <= calls
      ensures e.step == step && e.target == sub
      ensures expanded ==> Runs(finder, exec, sub.chain, e.below, depth + 1, old(visiting) + {key}, at)
      ensures r.Ok? ==>
                && expanded
                && at + Total(e.below) < MAX_STEPS
                && OwnCall(exec, e, at).outcome.err == None
                && visiting == old(visiting)
                && calls == old(calls) + Subtree(exec, e, at)
                && r.value == OwnCall(exec, e, at).outcome.view
      ensures r.Err? && expanded ==> at + Total(e.below) >= MAX_STEPS || OwnCall(exec, e, at).outcome.err.Some?
      ensures !expanded ==> CannotRun(finder, exec, sub.chain, depth + 1, old(visiting) + {key}, at)
      decreases MAX_DEPTH - depth, 0
    {
      hide Views, Calls, Size, Total, OwnCall, Subtree, Runs, VisitKey, Target, Bounded, Trace, Reports;
      visiting := visiting + {key};
      var subChainMap;
      ghost var below;
      subChainMap, below := ResolveSteps(sub.chain, depth + 1, at);
      expanded, e := subChainMap.Ok?, Exp(step, sub, below);
      if subChainMap.Err? {
        return Err(subChainMap.message), e, expanded;
      }
      CallCount(exec, below, |below|, at);
      if stepCount >= MAX_STEPS {
        return Err("step count exceeds limit"), e, expanded;
      }
      var o := Execute(step, sub, subChainMap.value);
      OwnCallIs(exec, e, at, subChainMap.value, o);
      if o.err.Some? {
        return Err(o.err.value), e, expanded;
      }
      visiting := visiting - {key};
      ConcatAssociative(old(calls), Calls(exec, below, |below|, at), [OwnCall(exec, e, at)]);
      return Ok(o.view), e, expanded;
    }

    /** `resolveSteps`. It succeeds exactly when the steps have an expansion that runs, and then the
        executions made are those of that expansion, the result is its alias map, and the visiting
        set is as before. */
    method ResolveSteps(steps: seq<ChainStep>, depth: nat, ghost k: nat)
      returns (r: Result<map<string, View>>, ghost es: seq<Exp>)
      requires Valid() && k == stepCount
      modifies this
      ensures Valid()
      ensures old(calls) <= calls
      ensures r.Ok? ==>
                && Runs(finder, exec, steps, es, depth, old(visiting), k)
                && visiting == old(visiting)
                && calls == old(calls) + Calls(exec, es, |es|, k)
                && r.value == Views(exec, es, |es|, k)
      ensures r.Err? ==> CannotRun(finder, exec, steps, depth, old(visiting), k)
      decreases MAX_DEPTH - depth, 1
    {
      hide Views, Calls, Size, Total, OwnCall, Subtree, Runs, StepAdmitted, CannotRun, VisitKey, Target, Bounded, Trace, Reports;
      es := [];
      if depth >= MAX_DEPTH {
        TooDeep(finder, exec, steps, depth, visiting, k);
        return Err("depth exceeds limit"), es;
      }
      var out: map<string, View> := map[];
      ghost var seen, done := visiting, calls;
      NothingRuns(finder, exec, steps, depth, seen, k);
      for i := 0 to |steps|
        invariant Valid() && visiting == seen && |es| == i
        invariant Runs(finder, exec, steps[..i], es, depth, seen, k)
        invariant calls == done + Calls(exec, es, |es|, k)
        invariant out == Views(exec, es, |es|, k)
      {
        CallCount(exec, es, |es|, k);
        var sub := Admit(steps[i], out);
        if sub.Err? {
          StuckAtStep(finder, exec, steps, es, depth, seen, k);
          return Err(sub.message), es;
        }
        var key := VisitKey(sub.value, steps[i]);
        var view;
        ghost var e, expanded;
        view, e, expanded := RunStep(steps[i], sub.value, key, depth, k + Total(es));
        if view.Err? {
          if expanded {
            StuckExecuting(finder, exec, steps, es, depth, seen, k, e);
          } else {
            StuckBelowStep(finder, exec, steps, es, depth, seen, k, key);
          }
          return Err(view.message), es;
        }
        out := out[steps[i].alias := view.value];
        RunsExtend(finder, exec, steps, es, e, depth, seen, k);
        PlaySnoc(exec, es, e, k);
        ConcatAssociative(done, Calls(exec, es, |es|, k), Subtree(exec, e, k + Total(es)));
        es := es + [e];
      }
      assert steps[..|steps|] == steps;
      return Ok(out), es;
    }
  }

  /** The cycle check starts from the request the chain belongs to. */
  function Start(leaf: Request): set<string> {
    if leaf.id != "" then {leaf.id} else {}
  }

  /** `Resolve`. It returns for every finder, cyclic ones included (the methods above decrease the
      distance to the depth cap), and succeeds exactly when the leaf's chain has an expansion that runs. */
  method Resolve(leaf: Request, finder: Finder, exec: Executor, reporting: bool)
    returns (r: Result<map<string, View>>, console: seq<string>, progress: seq<Progress>,
             ghost calls: seq<Call>, ghost es: seq<Exp>)
    ensures r.Ok? <==> exists fs :: Runs(finder, exec, leaf.chain, fs, 0, Start(leaf), 0)
    // On success: exactly the executions of the expansion, and the leaf's own alias map.
    ensures r.Ok? ==> Runs(finder, exec, leaf.chain, es, 0, Start(leaf), 0)
                      && calls == Calls(exec, es, |es|, 0) && r.value == Views(exec, es, |es|, 0)
    // Whatever happens: every execution is of the request its step pins, when there is one, and otherwise
    // of the request its path names.
    ensures forall c <- calls ::
              if c.step.requestID != "" && finder.byID(c.step.requestID).Some?
              then finder.byID(c.step.requestID) == Some(c.target)
              else c.step.request != "" && finder.byPath(c.step.request) == Some(c.target)
    // Whatever happens: at most 32 executions, and a console bounded by the trace of all of them.
    ensures |calls| <= 32 && |console| <= 1025 && console == Bounded(Trace(calls))
    // Progress counts 1, 2, ... and on success the announced total is what was executed.
    ensures !reporting ==> progress == []
    ensures reporting && r.Ok? ==> progress == Reports(calls, |calls|)
    ensures reporting && r.Err? ==> exists total: nat :: total <= MAX_STEPS && progress == Reports(calls, total)
  {
    var total := 0;
    if reporting {
      var counting;
      total, counting := CountSteps(finder, leaf.chain, Start(leaf), 0);
    }
    var runner := new Runner(finder, exec, reporting, total, Start(leaf));
    r, es := runner.ResolveSteps(leaf.chain, 0, 0);
    console, progress, calls := runner.console, runner.progress, runner.calls;
    if r.Ok? {
      CallCount(exec, es, |es|, 0);
      assert Countable(finder, leaf.chain, es, Start(leaf), 0);
    }
  }

  /** Two executions count as a repeat exactly when they are of one request ID, or, of requests without
      an ID, by one path; an ID that does not start with a NUL is never taken for a path. */
  lemma VisitKeysApart(t: Request, s: ChainStep, t2: Request, s2: ChainStep)
    ensures t.id != "" && t2.id != "" ==> (VisitKey(t, s) == VisitKey(t2, s2) <==> t.id == t2.id)
    ensures t.id == "" && t2.id == "" ==> (VisitKey(t, s) == VisitKey(t2, s2) <==> s.request == s2.request)
    ensures t.id != "" && t.id[0] != '\0' && t2.id == "" ==> VisitKey(t, s) != VisitKey(t2, s2)
  {
    var x, y := "\0path:" + s.request, "\0path:" + s2.request;
    assert x[6..] == s.request && y[6..] == s2.request;
  }

  /** The request a step would execute, from the two lookups alone. */
  function Found(f: Finder, s: ChainStep): Option<Request> {
    var pinned := if s.requestID == "" then None else f.byID(s.requestID);
    var named := if s.request == "" then None else f.byPath(s.request);
    match pinned
    case Some(r) => Some(r)
    case None => named
  }

  /** A successful Resolve rules out cycles: every walk along chain steps from the leaf is at most seven
      steps long, and neither repeats a request nor comes back to the leaf (for requests with IDs; others
      are told apart by the path that reached them). */
  lemma {:induction false} SuccessMeansAcyclic(leaf: Request, f: Finder, x: Executor, w: seq<ChainStep>)
    requires exists es :: Runs(f, x, leaf.chain, es, 0, Start(leaf), 0)
    requires IsWalk(f, leaf.chain, w)
    ensures |w| <= 7
    ensures forall i, j :: 0 <= i < j < |w| ==> StepKey(f, w[i]) != StepKey(f, w[j])
    ensures leaf.id != "" ==> forall i :: 0 <= i < |w| ==> StepKey(f, w[i]) != leaf.id
    ensures forall i :: 0 <= i < |w| ==> Found(f, w[i]).Some?
    ensures leaf.id != "" ==> forall i :: 0 <= i < |w| ==> Found(f, w[i]).value.id != leaf.id
    ensures forall i, j :: 0 <= i < j < |w| && Found(f, w[i]).value.id != "" ==>
                             Found(f, w[i]).value.id != Found(f, w[j]).value.id
  {
    hide IsIdentifier, Calls, Views, Size, Total, OwnCall, Succeeds, WellFormed;
    WalkResolves(f, leaf.chain, w);
    var es :| Runs(f, x, leaf.chain, es, 0, Start(leaf), 0);
    WalksNeverReturn(f, leaf.chain, es, Start(leaf), MAX_DEPTH - 1, w);
  }

  lemma {:induction false} WalkResolves(f: Finder, steps: seq<ChainStep>, w: seq<ChainStep>)
    requires IsWalk(f, steps, w)
    ensures forall i :: 0 <= i < |w| ==> Target(f, w[i]).Some? && Found(f, w[i]) == Target(f, w[i])
    decreases |w|
  {
    if w != [] {
      WalkResolves(f, Target(f, w[0]).value.chain, w[1..]);
      forall i | 0 <= i < |w| ensures Target(f, w[i]).Some? && Found(f, w[i]) == Target(f, w[i]) {
        assert i > 0 ==> w[i] == w[1..][i - 1];
      }
    }
  }
}
